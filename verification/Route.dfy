/**
 The site's routes as location hashes: `routeToString` and `parseCurrentRoute`.
 */
module Route {
  import opened Wrappers

  datatype QueryType = BySingle | ByMultiple | BySchema

  datatype Route =
    | Home
    | Insert
    | Settings
    | Query(kind: Option<QueryType>)
    | Schemas(id: Option<string>, query: Option<string>, version: Option<string>, creating: Option<bool>)

  type Pair = (string, string)

  // ----- Strings -----

  function Split(s: string, c: char): (parts: seq<string>)
    ensures parts != []
  {
    if s == "" then [""]
    else if s[0] == c then [""] + Split(s[1..], c)
    else var rest := Split(s[1..], c); [[s[0]] + rest[0]] + rest[1..]
  }

  function Join(parts: seq<string>, c: char): string {
    if parts == [] then ""
    else if |parts| == 1 then parts[0]
    else parts[0] + [c] + Join(parts[1..], c)
  }

  predicate Lacks(s: string, c: char) {
    forall i :: 0 <= i < |s| ==> s[i] != c
  }

  lemma {:induction false} SplitAlone(s: string, c: char)
    requires Lacks(s, c)
    ensures Split(s, c) == [s]
  {
    if s != "" {
      assert [s[0]] + s[1..] == s;
      SplitAlone(s[1..], c);
    }
  }

  lemma {:induction false} SplitFirst(p: string, s: string, c: char)
    requires Lacks(p, c)
    ensures Split(p + [c] + s, c) == [p] + Split(s, c)
  {
    if p == "" {
      assert (p + [c] + s)[1..] == s;
    } else {
      assert (p + [c] + s)[1..] == p[1..] + [c] + s;
      SplitFirst(p[1..], s, c);
      assert [p[0]] + p[1..] == p;
    }
  }

  lemma {:induction false} SplitJoin(parts: seq<string>, c: char)
    requires parts != [] && forall i :: 0 <= i < |parts| ==> Lacks(parts[i], c)
    ensures Split(Join(parts, c), c) == parts
  {
    if |parts| == 1 {
      SplitAlone(parts[0], c);
    } else {
      SplitJoin(parts[1..], c);
      SplitFirst(parts[0], Join(parts[1..], c), c);
    }
  }

  predicate StartsWith(s: string, prefix: string) {
    prefix <= s
  }

  // ----- Query parameters -----

  type Byte = b: int | 0 <= b < 256

  function HexDigit(c: char): (digit: Option<int>)
    ensures digit.Some? ==> 0 <= digit.value < 16
  {
    if '0' <= c <= '9' then Some(c as int - '0' as int)
    else if 'a' <= c <= 'f' then Some(c as int - 'a' as int + 10)
    else if 'A' <= c <= 'F' then Some(c as int - 'A' as int + 10)
    else None
  }

  /** A per cent sign and two hexadecimal digits at position `i`. */
  predicate EscapeAt(s: string, i: nat) {
    i + 2 < |s| && s[i] == '%' && HexDigit(s[i + 1]).Some? && HexDigit(s[i + 2]).Some?
  }

  /** The bytes of the escapes a string starts with. */
  function Escapes(s: string): (bytes: seq<Byte>)
    ensures 3 * |bytes| <= |s|
  {
    if EscapeAt(s, 0) then [16 * HexDigit(s[1]).value + HexDigit(s[2]).value] + Escapes(s[3..]) else []
  }

  /** How many bytes a UTF-8 sequence with this first byte has; none has other first bytes. */
  function Width(lead: int): nat {
    if 0xC2 <= lead <= 0xDF then 2 else if 0xE0 <= lead <= 0xEF then 3 else if 0xF0 <= lead <= 0xF4 then 4 else 0
  }

  predicate Follows(lead: int, b: int) {
    && (if lead == 0xE0 then 0xA0 else if lead == 0xF0 then 0x90 else 0x80) <= b
    && b <= (if lead == 0xED then 0x9F else if lead == 0xF4 then 0x8F else 0xBF)
  }

  /** How many bytes at the front belong together: a sequence, or as much of one as there is. */
  function Together(bytes: seq<Byte>): (n: nat)
    requires bytes != []
    ensures 1 <= n <= |bytes|
  {
    var width := Width(bytes[0]);
    if width == 0 || |bytes| < 2 || !Follows(bytes[0], bytes[1]) then 1
    else if width == 2 || |bytes| < 3 || !Follows(0, bytes[2]) then 2
    else if width == 3 || |bytes| < 4 || !Follows(0, bytes[3]) then 3
    else 4
  }

  /** A whole UTF-8 sequence is its character, anything else a replacement character. */
  function Utf8(bytes: seq<Byte>): (text: string)
    ensures |text| <= |bytes|
  {
    if bytes == [] then ""
    else
      var n := Together(bytes);
      [Character(bytes[..n])] + Utf8(bytes[n..])
  }

  function Character(b: seq<Byte>): char
    requires b != [] && |b| == Together(b)
  {
    var lead: int := b[0];
    if lead < 0x80 then lead as char
    else if |b| != Width(lead) then '\U{FFFD}'
    else if |b| == 2 then (64 * (lead - 0xC0) + Tail(b[1])) as char
    else if |b| == 3 then (4096 * (lead - 0xE0) + 64 * Tail(b[1]) + Tail(b[2])) as char
    else (262144 * (lead - 0xF0) + 4096 * Tail(b[1]) + 64 * Tail(b[2]) + Tail(b[3])) as char
  }

  function Tail(b: Byte): int {
    b as int - 0x80
  }

  /** `+` is a space, and escapes are the UTF-8 bytes of a text. */
  function Decode(s: string): string {
    if s == "" then ""
    else if s[0] == '+' then " " + Decode(s[1..])
    else if EscapeAt(s, 0) then
      var bytes := Escapes(s);
      Utf8(bytes) + Decode(s[3 * |bytes|..])
    else [s[0]] + Decode(s[1..])
  }

  /** A parameter is split at its first `=`. */
  function ParsePair(s: string): Pair {
    var parts := Split(s, '=');
    (Decode(parts[0]), Decode(Join(parts[1..], '=')))
  }

  function ParseAll(parts: seq<string>): seq<Pair> {
    if parts == [] then []
    else if parts[0] == "" then ParseAll(parts[1..])
    else [ParsePair(parts[0])] + ParseAll(parts[1..])
  }

  /** `new URLSearchParams(s)`. */
  function SearchParams(s: string): seq<Pair> {
    ParseAll(Split(s, '&'))
  }

  /** `params.get(name) || undefined`. */
  function Get(params: seq<Pair>, name: string): Option<string> {
    if params == [] then None
    else if params[0].0 == name then (if params[0].1 == "" then None else Some(params[0].1))
    else Get(params[1..], name)
  }

  // ----- Printing and parsing -----

  function QueryTypeText(kind: QueryType): string {
    match kind
    case BySingle => "single"
    case ByMultiple => "multiple"
    case BySchema => "schema"
  }

  function ParseQueryType(s: Option<string>): Option<QueryType> {
    match s
    case None => None
    case Some(t) =>
      if t == "single" then Some(BySingle)
      else if t == "multiple" then Some(ByMultiple)
      else if t == "schema" then Some(BySchema)
      else None
  }

  /** A parameter is printed when its value is there and not empty. */
  function Kept(key: string, value: Option<string>): seq<Pair> {
    if value.Some? && value.value != "" then [(key, value.value)] else []
  }

  function Params(r: Route): seq<Pair>
    requires r.Schemas?
  {
    Kept("id", r.id) + Kept("version", r.version) + Kept("query", r.query)
    + Kept("creating", if r.creating == Some(true) then Some("true") else None)
  }

  function Render(params: seq<Pair>): seq<string> {
    seq(|params|, i requires 0 <= i < |params| => params[i].0 + "=" + params[i].1)
  }

  function RouteToString(r: Route): string {
    match r
    case Home => "#/"
    case Insert => "#/insert"
    case Settings => "#/settings"
    case Query(None) => "#/query"
    case Query(Some(kind)) => "#/query" + "?" + "by=" + QueryTypeText(kind)
    case Schemas(_, _, _, _) =>
      if Params(r) != [] then "#/schemas" + "?" + Join(Render(Params(r)), '&') else "#/schemas"
  }

  /** The parameters between the first and the second question mark. */
  function HashParams(hash: string): seq<Pair> {
    var parts := Split(hash, '?');
    SearchParams(if |parts| > 1 then parts[1] else "")
  }

  function ParsePage(hash: string, params: seq<Pair>): Option<Route> {
    if hash == "" || hash == "#/" then Some(Home)
    else if StartsWith(hash, "#/insert") then Some(Insert)
    else if StartsWith(hash, "#/query") then Some(Query(ParseQueryType(Get(params, "by"))))
    else if StartsWith(hash, "#/settings") then Some(Settings)
    else if StartsWith(hash, "#/schemas") then
      Some(Schemas(Get(params, "id"), Get(params, "query"), Get(params, "version"),
                   Some(Get(params, "creating") == Some("true"))))
    else None
  }

  /** `parseCurrentRoute` for a given `location.hash`. */
  function ParseRoute(hash: string): Option<Route> {
    ParsePage(hash, HashParams(hash))
  }

  /** Empty values count as absent, and an absent flag as false. */
  function Normalised(r: Route): Route {
    match r
    case Schemas(id, query, version, creating) =>
      Schemas(NonEmpty(id), NonEmpty(query), NonEmpty(version), Some(creating == Some(true)))
    case _ => r
  }

  function NonEmpty(s: Option<string>): Option<string> {
    if s == Some("") then None else s
  }

  /** Nothing that separates parameters, and nothing that stands for something else. */
  predicate Safe(s: string) {
    Lacks(s, '&') && Lacks(s, '?') && Lacks(s, '+') && forall i :: 0 <= i < |s| ==> !EscapeAt(s, i)
  }

  predicate SafeValue(v: Option<string>) {
    v.Some? ==> Safe(v.value)
  }

  predicate SafeValues(r: Route) {
    r.Schemas? ==> SafeValue(r.id) && SafeValue(r.query) && SafeValue(r.version)
  }

  /** Section 2.3 of RFC 3986. */
  predicate Unreserved(c: char) {
    'a' <= c <= 'z' || 'A' <= c <= 'Z' || '0' <= c <= '9' || c in "-._~"
  }

  lemma UnreservedIsSafe(s: string)
    requires forall i :: 0 <= i < |s| ==> Unreserved(s[i])
    ensures Safe(s)
  {
  }

  /** Decoding never lengthens a string, and leaves alone exactly those without `+` and escapes. */
  lemma {:induction false} DecodeIff(s: string)
    ensures |Decode(s)| <= |s|
    ensures Decode(s) == s <==> Lacks(s, '+') && forall i :: 0 <= i < |s| ==> !EscapeAt(s, i)
  {
    if s != "" {
      if s[0] == '+' {
        DecodeIff(s[1..]);
        assert Decode(s)[0] == ' ';
      } else if EscapeAt(s, 0) {
        var n := |Escapes(s)|;
        assert n >= 1;
        DecodeIff(s[3 * n..]);
      } else {
        DecodeIff(s[1..]);
        assert [s[0]] + s[1..] == s;
        assert Decode(s)[1..] == Decode(s[1..]);
        forall i | 0 <= i < |s[1..]| ensures EscapeAt(s[1..], i) <==> EscapeAt(s, i + 1) {}
        if forall i :: 0 <= i < |s[1..]| ==> !EscapeAt(s[1..], i) {
          forall i | 0 <= i < |s| ensures !EscapeAt(s, i) {
            assert i > 0 ==> !EscapeAt(s[1..], i - 1);
          }
        }
      }
    }
  }

  lemma {:induction false} JoinSplit(s: string, c: char)
    ensures Join(Split(s, c), c) == s
  {
    if s != "" {
      JoinSplit(s[1..], c);
      var rest := Split(s[1..], c);
      if s[0] == c {
        assert ([""] + rest)[1..] == rest;
      } else if |rest| > 1 {
        assert ([[s[0]] + rest[0]] + rest[1..])[1..] == rest[1..];
      }
    }
  }

  lemma ParseSafePair(p: Pair)
    requires Safe(p.0) && Lacks(p.0, '=') && Safe(p.1)
    ensures ParsePair(p.0 + "=" + p.1) == p
  {
    SplitFirst(p.0, p.1, '=');
    JoinSplit(p.1, '=');
    var parts := Split(p.0 + "=" + p.1, '=');
    assert parts[1..] == Split(p.1, '=');
    DecodeIff(p.0);
    DecodeIff(p.1);
  }

  predicate SafePair(p: Pair) {
    Safe(p.0) && Lacks(p.0, '=') && Safe(p.1)
  }

  lemma {:induction false} ParseAllRendered(params: seq<Pair>)
    requires forall i :: 0 <= i < |params| ==> SafePair(params[i])
    ensures ParseAll(Render(params)) == params
  {
    if params != [] {
      ParseSafePair(params[0]);
      ParseAllRendered(params[1..]);
      assert Render(params)[1..] == Render(params[1..]);
    }
  }

  /** Printed parameters are parsed back. */
  lemma SearchParamsRendered(params: seq<Pair>)
    requires params != [] && forall i :: 0 <= i < |params| ==> SafePair(params[i])
    ensures SearchParams(Join(Render(params), '&')) == params
    ensures Lacks(Join(Render(params), '&'), '?')
  {
    var parts := Render(params);
    forall i | 0 <= i < |parts| ensures Lacks(parts[i], '&') && Lacks(parts[i], '?') {
      assert SafePair(params[i]);
    }
    SplitJoin(parts, '&');
    ParseAllRendered(params);
    JoinWithout(parts, '&', '?');
  }

  lemma {:induction false} JoinWithout(parts: seq<string>, c: char, d: char)
    requires c != d && forall i :: 0 <= i < |parts| ==> Lacks(parts[i], d)
    ensures Lacks(Join(parts, c), d)
  {
    if |parts| > 1 {
      JoinWithout(parts[1..], c, d);
    }
  }

  lemma {:induction false} GetAppend(a: seq<Pair>, b: seq<Pair>, name: string)
    requires forall i :: 0 <= i < |a| ==> a[i].1 != ""
    ensures Get(a + b, name) == if Get(a, name).Some? then Get(a, name) else Get(b, name)
  {
    if a == [] {
      assert a + b == b;
    } else {
      assert (a + b)[1..] == a[1..] + b;
      GetAppend(a[1..], b, name);
    }
  }

  lemma GetKept(r: Route, name: string)
    requires r.Schemas?
    ensures name == "id" ==> Get(Params(r), name) == NonEmpty(r.id)
    ensures name == "version" ==> Get(Params(r), name) == NonEmpty(r.version)
    ensures name == "query" ==> Get(Params(r), name) == NonEmpty(r.query)
    ensures name == "creating" ==> (Get(Params(r), name) == Some("true") <==> r.creating == Some(true))
  {
    var a, b, c := Kept("id", r.id), Kept("version", r.version), Kept("query", r.query);
    var d := Kept("creating", if r.creating == Some(true) then Some("true") else None);
    GetAppend(a + b + c, d, name);
    GetAppend(a + b, c, name);
    GetAppend(a, b, name);
  }

  lemma ParamsOf(page: string, params: seq<Pair>)
    requires Lacks(page, '?') && params != [] && forall i :: 0 <= i < |params| ==> SafePair(params[i])
    ensures HashParams(page + "?" + Join(Render(params), '&')) == params
  {
    var text := Join(Render(params), '&');
    SearchParamsRendered(params);
    SplitFirst(page, text, '?');
    SplitAlone(text, '?');
  }

  lemma NoParams(page: string)
    requires Lacks(page, '?')
    ensures HashParams(page) == []
  {
    SplitAlone(page, '?');
    SplitAlone("", '&');
  }

  lemma SchemasPage(rest: string, params: seq<Pair>)
    ensures ParsePage("#/schemas" + rest, params) ==
            Some(Schemas(Get(params, "id"), Get(params, "query"), Get(params, "version"),
                         Some(Get(params, "creating") == Some("true"))))
  {
    var hash := "#/schemas" + rest;
    assert hash[2] == 's' && hash[3] == 'c';
    assert "#/insert"[2] == 'i' && "#/query"[2] == 'q' && "#/settings"[3] == 'e';
  }

  lemma QueryPage(rest: string, params: seq<Pair>)
    ensures ParsePage("#/query" + rest, params) == Some(Query(ParseQueryType(Get(params, "by"))))
  {
    var hash := "#/query" + rest;
    assert hash[2] == 'q' && "#/insert"[2] == 'i';
  }

  lemma QueryParams(text: string)
    requires Safe(text) && text != ""
    ensures HashParams("#/query" + "?" + "by=" + text) == [("by", text)]
  {
    var params := [("by", text)];
    assert "by" + "=" + text == "by=" + text;
    assert Render(params) == ["by=" + text];
    assert SafePair(params[0]);
    ParamsOf("#/query", params);
    assert "#/query" + "?" + "by=" + text == "#/query" + "?" + ("by=" + text);
  }

  lemma RoundTripQuery(kind: QueryType)
    ensures ParseRoute(RouteToString(Query(Some(kind)))) == Some(Query(Some(kind)))
  {
    var text := QueryTypeText(kind);
    QueryTypeTextParses(kind);
    QueryParams(text);
    QueryPage("?" + "by=" + text, [("by", text)]);
    assert "#/query" + ("?" + "by=" + text) == "#/query" + "?" + "by=" + text;
  }

  lemma QueryTypeTextParses(kind: QueryType)
    ensures Safe(QueryTypeText(kind)) && QueryTypeText(kind) != ""
    ensures ParseQueryType(Get([("by", QueryTypeText(kind))], "by")) == Some(kind)
  {
  }

  lemma RoundTripSchemas(r: Route)
    requires r.Schemas? && SafeValues(r)
    ensures ParseRoute(RouteToString(r)) == Some(Normalised(r))
  {
    var params := Params(r);
    GetKept(r, "id");
    GetKept(r, "version");
    GetKept(r, "query");
    GetKept(r, "creating");
    if params != [] {
      var text := Join(Render(params), '&');
      KeptSafe(r);
      ParamsOf("#/schemas", params);
      SchemasPage("?" + text, params);
      assert RouteToString(r) == "#/schemas" + ("?" + text);
    } else {
      NoParams("#/schemas");
      SchemasPage("", params);
      assert "#/schemas" + "" == "#/schemas";
    }
  }

  lemma KeptSafe(r: Route)
    requires r.Schemas? && SafeValues(r)
    ensures forall i :: 0 <= i < |Params(r)| ==> SafePair(Params(r)[i])
  {
    KeysSafe();
  }

  lemma RoundTripQueries(kind: Option<QueryType>)
    ensures ParseRoute(RouteToString(Query(kind))) == Some(Query(kind))
  {
    if kind.Some? {
      RoundTripQuery(kind.value);
    } else {
      NoParams("#/query");
      QueryPage("", []);
      assert "#/query" + "" == "#/query";
    }
  }

  lemma RoundTripSettings()
    ensures ParseRoute(RouteToString(Settings)) == Some(Settings)
  {
    SettingsPage("", HashParams("#/settings"));
    assert "#/settings" + "" == "#/settings";
  }

  /** Parsing a printed route gives the route back, normalised. */
  lemma RoundTrip(r: Route)
    requires SafeValues(r)
    ensures ParseRoute(RouteToString(r)) == Some(Normalised(r))
  {
    match r
    case Schemas(_, _, _, _) => RoundTripSchemas(r);
    case Query(kind) => RoundTripQueries(kind);
    case Home =>
    case Insert =>
    case Settings => RoundTripSettings();
  }

  lemma PrintNormalised(r: Route)
    ensures RouteToString(Normalised(r)) == RouteToString(r)
  {
    if r.Schemas? {
      assert Params(Normalised(r)) == Params(r);
    }
  }

  /** Two routes print alike exactly when they normalise alike. */
  lemma PrintAlikeIff(r: Route, t: Route)
    requires SafeValues(r) && SafeValues(t)
    ensures RouteToString(r) == RouteToString(t) <==> Normalised(r) == Normalised(t)
  {
    RoundTrip(r);
    RoundTrip(t);
    PrintNormalised(r);
    PrintNormalised(t);
  }

  // ----- What an unsafe value reads back as -----

  function Upto(s: string, c: char): string {
    Split(s, c)[0]
  }

  lemma {:induction false} UptoAppend(p: string, s: string, c: char)
    requires Lacks(p, c)
    ensures Upto(p + s, c) == p + Upto(s, c)
  {
    if p == "" {
      assert p + s == s;
    } else {
      assert (p + s)[1..] == p[1..] + s;
      UptoAppend(p[1..], s, c);
    }
  }

  /** What is left of a value before the first separator, in front of the next parameter. */
  lemma {:induction false} Cut(v: string, tail: string)
    requires tail == "" || tail[0] == '&'
    ensures var cut := Upto(Upto(v + tail, '?'), '&');
            |cut| <= |v| && (|cut| == |v| ==> cut == v && Lacks(v, '&') && Lacks(v, '?'))
  {
    if v == "" {
      assert v + tail == tail;
    } else {
      assert (v + tail)[1..] == v[1..] + tail;
      Cut(v[1..], tail);
      if v[0] != '?' {
        var rest := Upto(v[1..] + tail, '?');
        assert Upto(v + tail, '?') == [v[0]] + rest;
        assert ([v[0]] + rest)[1..] == rest;
      }
    }
  }

  /** `params` starts with what was printed, then holds something else than `v` under the key. */
  ghost predicate Garbled(params: seq<Pair>, before: seq<Pair>, key: string, v: string) {
    before < params && params[|before|].0 == key && params[|before|].1 != v
  }

  lemma FirstGarbled(key: string, v: string, tail: string)
    requires Safe(key) && Lacks(key, '=') && key != "" && !Safe(v) && (tail == "" || tail[0] == '&')
    ensures Garbled(SearchParams(Upto(key + "=" + v + tail, '?')), [], key, v)
  {
    var named := key + "=";
    assert key + "=" + v + tail == named + (v + tail);
    UptoAppend(named, v + tail, '?');
    UptoAppend(named, Upto(v + tail, '?'), '&');
    var cut := Upto(Upto(v + tail, '?'), '&');
    Cut(v, tail);
    SplitFirst(key, cut, '=');
    JoinSplit(cut, '=');
    assert named + cut == key + ['='] + cut;
    assert Split(named + cut, '=')[1..] == Split(cut, '=');
    DecodeIff(key);
    DecodeIff(cut);
    assert ParsePair(named + cut) == (key, Decode(cut));
  }

  lemma {:induction false} UnsafeGarbled(before: seq<Pair>, key: string, v: string, rest: seq<Pair>)
    requires forall i :: 0 <= i < |before| ==> SafePair(before[i])
    requires Safe(key) && Lacks(key, '=') && key != "" && !Safe(v)
    ensures Garbled(SearchParams(Upto(Join(Render(before + [(key, v)] + rest), '&'), '?')), before, key, v)
    decreases |before|
  {
    var all := before + [(key, v)] + rest;
    var parts := Render(all);
    if before == [] {
      assert parts[0] == key + "=" + v && parts[1..] == Render(rest);
      var tail := if rest == [] then "" else "&" + Join(Render(rest), '&');
      assert Join(parts, '&') == key + "=" + v + tail;
      FirstGarbled(key, v, tail);
    } else {
      var p, others := before[0], before[1..] + [(key, v)] + rest;
      assert all[1..] == others && parts[1..] == Render(others);
      SafeFirst(p, Join(Render(others), '&'));
      UnsafeGarbled(before[1..], key, v, rest);
      assert before == [p] + before[1..];
    }
  }

  /** A safe parameter in front is read as it is, whatever follows. */
  lemma SafeFirst(p: Pair, text: string)
    requires SafePair(p)
    ensures SearchParams(Upto(p.0 + "=" + p.1 + ['&'] + text, '?')) == [p] + SearchParams(Upto(text, '?'))
  {
    var first, short := p.0 + "=" + p.1, Upto(text, '?');
    assert first + ['&'] + text == (first + ['&']) + text;
    UptoAppend(first + ['&'], text, '?');
    SplitFirst(first, short, '&');
    ParseSafePair(p);
    assert ([first] + Split(short, '&'))[1..] == Split(short, '&');
  }

  lemma {:induction false} GetGarbled(params: seq<Pair>, before: seq<Pair>, key: string, v: string)
    requires Garbled(params, before, key, v) && forall i :: 0 <= i < |before| ==> before[i].0 != key
    ensures Get(params, key) != Some(v)
    decreases |before|
  {
    if before != [] {
      assert before[0] == params[0];
      GetGarbled(params[1..], before[1..], key, v);
    }
  }

  /** The first unsafe parameter in print order. */
  lemma FirstUnsafe(r: Route) returns (i: nat)
    requires r.Schemas? && !SafeValues(r)
    ensures i < |Params(r)| && !Safe(Params(r)[i].1)
    ensures forall j :: 0 <= j < i ==> SafePair(Params(r)[j]) && Params(r)[j].0 != Params(r)[i].0
    ensures var p := Params(r)[i];
            || (p.0 == "id" && r.id == Some(p.1)) || (p.0 == "version" && r.version == Some(p.1))
            || (p.0 == "query" && r.query == Some(p.1))
  {
    KeysSafe();
    var a, b := |Kept("id", r.id)|, |Kept("version", r.version)|;
    i := if !SafeValue(r.id) then 0 else if !SafeValue(r.version) then a else a + b;
  }

  lemma KeysSafe()
    ensures Safe("") && SafePair(("id", "")) && SafePair(("version", "")) && SafePair(("query", ""))
    ensures SafePair(("creating", "true"))
  {
  }

  /** An unsafe value is not read back, so neither is its route. */
  lemma UnsafeIsLost(r: Route)
    requires r.Schemas? && !SafeValues(r)
    ensures ParseRoute(RouteToString(r)) != Some(Normalised(r))
  {
    var i := FirstUnsafe(r);
    var params := Params(r);
    var before, p := params[..i], params[i];
    assert params == before + [p] + params[i + 1..];
    KeysSafe();
    UnsafeGarbled(before, p.0, p.1, params[i + 1..]);
    GetGarbled(SearchParams(Upto(Join(Render(params), '&'), '?')), before, p.0, p.1);
    SchemasParsed(r);
  }

  /** What is read from printed parameters, cut at the first question mark. */
  lemma SchemasParsed(r: Route)
    requires r.Schemas? && Params(r) != []
    ensures var read := SearchParams(Upto(Join(Render(Params(r)), '&'), '?'));
            ParseRoute(RouteToString(r)) ==
            Some(Schemas(Get(read, "id"), Get(read, "query"), Get(read, "version"),
                         Some(Get(read, "creating") == Some("true"))))
  {
    var text := Join(Render(Params(r)), '&');
    assert "#/schemas" + "?" + text == "#/schemas" + ("?" + text);
    SplitFirst("#/schemas", text, '?');
    SchemasPage("?" + text, HashParams("#/schemas" + ("?" + text)));
  }

  /** Parsing a printed route gives it back, normalised, exactly when no value has a separator or an escape. */
  lemma RoundTripIff(r: Route)
    ensures ParseRoute(RouteToString(r)) == Some(Normalised(r)) <==> SafeValues(r)
  {
    if SafeValues(r) {
      RoundTrip(r);
    } else {
      UnsafeIsLost(r);
    }
  }

  // ----- The texts themselves -----

  /** What the printer writes for the pages. */
  lemma PrintedPages()
    ensures RouteToString(Home) == "#/" && RouteToString(Insert) == "#/insert"
    ensures RouteToString(Settings) == "#/settings" && RouteToString(Query(None)) == "#/query"
    ensures RouteToString(Schemas(None, None, None, None)) == "#/schemas"
  {
  }

  lemma PrintedQueries()
    ensures RouteToString(Query(Some(BySingle))) == "#/query?by=single"
    ensures RouteToString(Query(Some(ByMultiple))) == "#/query?by=multiple"
    ensures RouteToString(Query(Some(BySchema))) == "#/query?by=schema"
  {
  }

  /** What it writes for the parameters of a schema page. */
  lemma PrintedSchemas(id: string, query: string, version: string)
    requires id != "" && query != "" && version != ""
    ensures RouteToString(Schemas(Some(id), Some(query), Some(version), Some(true))) ==
            "#/schemas" + "?" + Join(["id=" + id, "version=" + version, "query=" + query, "creating=true"], '&')
  {
    var r := Schemas(Some(id), Some(query), Some(version), Some(true));
    assert Params(r) == [("id", id), ("version", version), ("query", query), ("creating", "true")];
    RenderedFour(id, query, version);
  }

  lemma RenderedFour(id: string, query: string, version: string)
    ensures Render([("id", id), ("version", version), ("query", query), ("creating", "true")]) ==
            ["id=" + id, "version=" + version, "query=" + query, "creating=true"]
  {
    assert "creating" + "=" + "true" == "creating=true";
    assert "id" + "=" + id == "id=" + id && "version" + "=" + version == "version=" + version;
    assert "query" + "=" + query == "query=" + query;
  }

  /** Which page a location is, whatever follows its name; the empty one is the home page. */
  lemma Pages(rest: string, params: seq<Pair>)
    ensures ParsePage("", params) == Some(Home) && ParsePage("#/", params) == Some(Home)
    ensures ParsePage("#/insert" + rest, params) == Some(Insert)
    ensures ParsePage("#/settings" + rest, params) == Some(Settings)
    ensures ParsePage("#/query" + rest, params) == Some(Query(ParseQueryType(Get(params, "by"))))
    ensures ParsePage("#/schemas" + rest, params).Some? && ParsePage("#/schemas" + rest, params).value.Schemas?
  {
    QueryPage(rest, params);
    SchemasPage(rest, params);
    SettingsPage(rest, params);
  }

  /** Any other location has no page. */
  lemma NoPage(hash: string, params: seq<Pair>)
    ensures ParsePage(hash, params) == None <==>
            && hash != "" && hash != "#/"
            && !("#/insert" <= hash) && !("#/query" <= hash) && !("#/settings" <= hash) && !("#/schemas" <= hash)
  {
  }

  lemma SettingsPage(rest: string, params: seq<Pair>)
    ensures ParsePage("#/settings" + rest, params) == Some(Settings)
  {
    var hash := "#/settings" + rest;
    assert hash[2] == 's' && "#/insert"[2] == 'i' && "#/query"[2] == 'q';
  }

  // ----- What escaping would give -----

  function HexOf(digit: int): char
    requires 0 <= digit < 16
  {
    "0123456789ABCDEF"[digit]
  }

  /** The UTF-8 bytes of a character. */
  function BytesOf(c: char): (bytes: seq<Byte>)
    ensures bytes != []
  {
    var n := c as int;
    var m := n / 64;
    var k := m / 64;
    if n < 0x80 then [n]
    else if n < 0x800 then [0xC0 + m, 0x80 + n % 64]
    else if n < 0x10000 then [0xE0 + k, 0x80 + m % 64, 0x80 + n % 64]
    else [0xF0 + k / 64, 0x80 + k % 64, 0x80 + m % 64, 0x80 + n % 64]
  }

  function Encoded(s: string): seq<Byte> {
    if s == "" then [] else BytesOf(s[0]) + Encoded(s[1..])
  }

  /** Every byte as an escape. */
  function Escaped(bytes: seq<Byte>): string {
    if bytes == [] then ""
    else Escape(bytes[0]) + Escaped(bytes[1..])
  }

  lemma HexDigits(digit: int)
    requires 0 <= digit < 16
    ensures HexDigit(HexOf(digit)) == Some(digit) && HexDigit("0123456789abcdef"[digit]) == Some(digit)
    ensures HexOf(digit) !in "&?+%="
  {
  }

  function Escape(b: Byte): string {
    ['%', HexOf(b / 16), HexOf(b % 16)]
  }

  lemma OneEscape(b: Byte, text: string)
    ensures EscapeAt(Escape(b) + text, 0) && Escapes(Escape(b) + text) == [b] + Escapes(text)
  {
    HexDigits(b / 16);
    HexDigits(b % 16);
    assert (Escape(b) + text)[3..] == text;
  }

  lemma EscapeLacks(b: Byte, c: char)
    requires c in "&?+"
    ensures Lacks(Escape(b), c)
  {
    HexDigits(b / 16);
    HexDigits(b % 16);
  }

  lemma {:induction false} EscapesEscaped(bytes: seq<Byte>)
    ensures Escapes(Escaped(bytes)) == bytes && |Escaped(bytes)| == 3 * |bytes|
  {
    if bytes != [] {
      EscapesEscaped(bytes[1..]);
      OneEscape(bytes[0], Escaped(bytes[1..]));
      assert bytes == [bytes[0]] + bytes[1..];
    }
  }

  lemma {:induction false} EscapedLacks(bytes: seq<Byte>, c: char)
    requires c in "&?+"
    ensures Lacks(Escaped(bytes), c)
  {
    if bytes != [] {
      EscapeLacks(bytes[0], c);
      EscapedLacks(bytes[1..], c);
    }
  }

  lemma TogetherAll(c: char, rest: seq<Byte>)
    ensures Together(BytesOf(c) + rest) == |BytesOf(c)|
    ensures c as int >= 0x80 ==> |BytesOf(c)| == Width(BytesOf(c)[0])
  {
    var n := c as int;
    var m := n / 64;
    var k := m / 64;
    assert n == 64 * m + n % 64 && m == 64 * k + m % 64 && k == 64 * (k / 64) + k % 64;
    var b := BytesOf(c);
    assert forall i :: 0 <= i < |b| ==> (b + rest)[i] == b[i];
  }

  lemma CharacterBack(c: char)
    requires |BytesOf(c)| == Together(BytesOf(c)) && (c as int >= 0x80 ==> |BytesOf(c)| == Width(BytesOf(c)[0]))
    ensures Character(BytesOf(c)) == c
  {
    var n := c as int;
    var m := n / 64;
    var k := m / 64;
    assert n == 64 * m + n % 64 && m == 64 * k + m % 64 && k == 64 * (k / 64) + k % 64;
  }

  lemma {:induction false} Utf8Encoded(s: string)
    ensures Utf8(Encoded(s)) == s
  {
    if s != "" {
      var bytes, rest := BytesOf(s[0]), Encoded(s[1..]);
      TogetherAll(s[0], rest);
      TogetherAll(s[0], []);
      assert bytes + [] == bytes;
      CharacterBack(s[0]);
      Utf8Encoded(s[1..]);
      assert (bytes + rest)[..|bytes|] == bytes && (bytes + rest)[|bytes|..] == rest;
      assert s == [s[0]] + s[1..];
    }
  }

  /** A plus sign is read as a space, and a byte that starts no character as a replacement character. */
  lemma PlusAndBadBytes(rest: string, b: Byte)
    requires b >= 0x80
    ensures Decode("+" + rest) == " " + Decode(rest) && Utf8([b]) == ['\U{FFFD}']
  {
    assert ("+" + rest)[1..] == rest;
    assert [b][1..] == [] && [b][..1] == [b];
  }

  /** Any text whatever, written as escapes, has no separators and is decoded to itself. */
  lemma EscapedDecodes(s: string)
    ensures var text := Escaped(Encoded(s));
            Decode(text) == s && Lacks(text, '&') && Lacks(text, '?') && Lacks(text, '+')
  {
    var bytes := Encoded(s);
    EscapesEscaped(bytes);
    EscapedLacks(bytes, '&');
    EscapedLacks(bytes, '?');
    EscapedLacks(bytes, '+');
    Utf8Encoded(s);
    if bytes != [] {
      OneEscape(bytes[0], Escaped(bytes[1..]));
      assert Escaped(bytes)[3 * |bytes|..] == "";
      assert s + "" == s;
    }
  }
}
