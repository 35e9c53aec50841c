// Reading reconstruction parameters back out of a browser's clientDataJSON: a JSON object of plain
// strings and literals without whitespace, and an http(s) origin of a host and an optional port.
module ClientDataParser {
  import opened Basics
  import opened Text
  import opened ClientData
  import opened TemplateInjective

  // ----- JSON

  datatype Json = Text(text: string) | Boolean(value: bool) | Null

  datatype Member = Member(key: string, value: Json)

  predicate PlainChar(c: char) { c != '"' && c != '\\' && c >= ' ' }

  predicate Plain(s: string) { forall i :: 0 <= i < |s| ==> PlainChar(s[i]) }

  /** The characters up to the closing quote, and what follows it. */
  function UntilQuote(s: string): Option<(string, string)> {
    if s == "" then None
    else if s[0] == '"' then Some(("", s[1..]))
    else if !PlainChar(s[0]) then None
    else
      var rest :- UntilQuote(s[1..]);
      Some(([s[0]] + rest.0, rest.1))
  }

  function TakeText(s: string): Option<(string, string)> {
    if s != "" && s[0] == '"' then UntilQuote(s[1..]) else None
  }

  function TakeValue(s: string): Option<(Json, string)> {
    if "true" <= s then Some((Boolean(true), s[4..]))
    else if "false" <= s then Some((Boolean(false), s[5..]))
    else if "null" <= s then Some((Null, s[4..]))
    else
      var text :- TakeText(s);
      Some((Text(text.0), text.1))
  }

  function TakeMember(s: string): Option<(Member, string)> {
    var key :- TakeText(s);
    if key.1 == "" || key.1[0] != ':' then None
    else
      var value :- TakeValue(key.1[1..]);
      Some((Member(key.0, value.0), value.1))
  }

  lemma {:induction false} UntilQuoteShrinks(s: string)
    requires UntilQuote(s).Some?
    ensures |UntilQuote(s).value.1| < |s|
  {
    if s[0] != '"' { UntilQuoteShrinks(s[1..]); }
  }

  lemma TakeMemberShrinks(s: string)
    requires TakeMember(s).Some?
    ensures |TakeMember(s).value.1| < |s|
  {
    UntilQuoteShrinks(s[1..]);
    var rest := TakeText(s).value.1[1..];
    if !("true" <= rest) && !("false" <= rest) && !("null" <= rest) { UntilQuoteShrinks(rest[1..]); }
  }

  function ParseMembers(s: string): Option<seq<Member>>
    decreases |s|
  {
    var member :- TakeMember(s);
    TakeMemberShrinks(s);
    if member.1 == "}" then Some([member.0])
    else if member.1 != "" && member.1[0] == ',' then
      var rest :- ParseMembers(member.1[1..]);
      Some([member.0] + rest)
    else None
  }

  function ParseObject(s: string): Option<seq<Member>> {
    if s == "{}" then Some([])
    else if s != "" && s[0] == '{' then ParseMembers(s[1..])
    else None
  }

  /** The value of a key; of several members with one key the last counts. */
  function Lookup(o: seq<Member>, key: string): Option<Json> {
    if o == [] then None
    else if o[|o| - 1].key == key then Some(o[|o| - 1].value)
    else Lookup(o[..|o| - 1], key)
  }

  // ----- writing JSON, the parser's inverse

  function ValueText(v: Json): string {
    match v
    case Text(s) => "\"" + (s + "\"")
    case Boolean(true) => "true"
    case Boolean(false) => "false"
    case Null => "null"
  }

  function MemberText(m: Member): string {
    "\"" + (m.key + ("\":" + ValueText(m.value)))
  }

  predicate PlainMember(m: Member) {
    Plain(m.key) && (m.value.Text? ==> Plain(m.value.text))
  }

  /** The members still to be written, up to the closing brace. */
  function RestText(o: seq<Member>): string {
    if o == [] then "}" else "," + (MemberText(o[0]) + RestText(o[1..]))
  }

  function ObjectText(o: seq<Member>): string
    requires o != []
  {
    "{" + (MemberText(o[0]) + RestText(o[1..]))
  }

  lemma {:induction false} UntilQuoteReads(content: string, rest: string)
    requires Plain(content)
    ensures UntilQuote(content + ("\"" + rest)) == Some((content, rest))
  {
    var s := content + ("\"" + rest);
    if content == "" {
      assert s[1..] == rest;
    } else {
      UntilQuoteReads(content[1..], rest);
      assert s[1..] == content[1..] + ("\"" + rest);
      assert content == [content[0]] + content[1..];
    }
  }

  lemma TakeTextReads(content: string, rest: string)
    requires Plain(content)
    ensures TakeText("\"" + (content + ("\"" + rest))) == Some((content, rest))
  {
    var s := "\"" + (content + ("\"" + rest));
    assert s[1..] == content + ("\"" + rest);
    UntilQuoteReads(content, rest);
  }

  lemma LiteralsDiffer(s: string)
    ensures "true" <= s ==> s[0] == 't'
    ensures "false" <= s ==> s[0] == 'f'
    ensures "null" <= s ==> s[0] == 'n'
  {
  }

  lemma TakeValueReads(v: Json, rest: string)
    requires v.Text? ==> Plain(v.text)
    ensures TakeValue(ValueText(v) + rest) == Some((v, rest))
  {
    var s := ValueText(v) + rest;
    LiteralsDiffer(s);
    match v
    case Text(t) =>
      assert s == "\"" + (t + ("\"" + rest));
      TakeTextReads(t, rest);
    case Boolean(true) => assert s[..4] == "true" && s[4..] == rest;
    case Boolean(false) => assert s[..5] == "false" && s[5..] == rest;
    case Null => assert s[..4] == "null" && s[4..] == rest;
  }

  lemma MemberPieces(key: string, value: string, rest: string)
    ensures "\"" + (key + ("\":" + value)) + rest == "\"" + (key + ("\"" + (":" + (value + rest))))
  {
    assert "\":" == "\"" + ":";
    assert ("\":" + value) + rest == "\"" + (":" + (value + rest));
    assert key + ("\":" + value) + rest == key + (("\":" + value) + rest);
  }

  lemma TakeMemberReads(m: Member, rest: string)
    requires PlainMember(m)
    ensures TakeMember(MemberText(m) + rest) == Some((m, rest))
  {
    var tail := ":" + (ValueText(m.value) + rest);
    MemberPieces(m.key, ValueText(m.value), rest);
    TakeTextReads(m.key, tail);
    assert tail[1..] == ValueText(m.value) + rest;
    TakeValueReads(m.value, rest);
  }

  lemma ParsesLast(m: Member)
    requires PlainMember(m)
    ensures ParseMembers(MemberText(m) + "}") == Some([m])
  {
    TakeMemberReads(m, "}");
  }

  lemma {:induction false} ParsesMore(m: Member, tail: seq<Member>, text: string)
    requires PlainMember(m) && ParseMembers(text) == Some(tail)
    ensures ParseMembers(MemberText(m) + ("," + text)) == Some([m] + tail)
  {
    TakeMemberReads(m, "," + text);
    assert ("," + text)[0] == ',' && ("," + text)[1..] == text;
  }

  lemma {:induction false} ParseMembersReads(o: seq<Member>)
    requires o != [] && forall m :: m in o ==> PlainMember(m)
    ensures ParseMembers(MemberText(o[0]) + RestText(o[1..])) == Some(o)
    decreases |o|
  {
    var tail := o[1..];
    assert o == [o[0]] + tail;
    if tail == [] {
      assert o == [o[0]];
      ParsesLast(o[0]);
    } else {
      ParseMembersReads(tail);
      var text := MemberText(tail[0]) + RestText(tail[1..]);
      assert RestText(tail) == "," + text;
      ParsesMore(o[0], tail, text);
    }
  }

  /** Parsing inverts writing, for every nonempty object of plain strings and literals. */
  lemma ObjectRoundTrip(o: seq<Member>)
    requires o != [] && forall m :: m in o ==> PlainMember(m)
    ensures ParseObject(ObjectText(o)) == Some(o)
  {
    var s := ObjectText(o);
    assert s[1..] == MemberText(o[0]) + RestText(o[1..]);
    ParseMembersReads(o);
    assert s[1] == '"';
  }

  // ----- the origin

  /** What `new URL` reports of an http(s) origin; a default port is reported as none. The host stays as written, since
      only its presence matters here. */
  datatype Url = Url(isHttp: bool, hostname: string, port: Option<nat>)

  /** A character of a host: not a blank, and none that ends a host, opens a bracket or splits off credentials. */
  predicate HostChar(c: char) {
    c > ' ' && c !in "\"\\/?#@:[]"
  }

  predicate HostChars(s: string) { forall i :: 0 <= i < |s| ==> HostChar(s[i]) }

  /** Inside brackets colons may stand as well. */
  predicate BracketChars(s: string) { forall i :: 0 <= i < |s| ==> HostChar(s[i]) || s[i] == ':' }

  /** A host as it is written: a name, an IPv4 address, or a bracketed IPv6 address. */
  predicate HostText(s: string) {
    HostChars(s) || (|s| >= 2 && s[0] == '[' && s[|s| - 1] == ']' && BracketChars(s[1..|s| - 1]))
  }

  /** The longest prefix of host characters, and what follows it. */
  function TakeName(s: string): (string, string) {
    if s == "" || !HostChar(s[0]) then ("", s)
    else
      var rest := TakeName(s[1..]);
      ([s[0]] + rest.0, rest.1)
  }

  /** What stands before the closing bracket, and what follows it. */
  function TakeBracketed(s: string): Option<(string, string)> {
    if s == "" then None
    else if s[0] == ']' then Some(("", s[1..]))
    else if !HostChar(s[0]) && s[0] != ':' then None
    else
      var rest :- TakeBracketed(s[1..]);
      Some(([s[0]] + rest.0, rest.1))
  }

  /** The host as written, and what follows it. */
  function TakeHost(s: string): (string, string) {
    if s != "" && s[0] == '[' then
      match TakeBracketed(s[1..])
      case None => ("", s)
      case Some(t) => ("[" + t.0 + "]", t.1)
    else TakeName(s)
  }

  function DefaultPort(isHttp: bool): nat { if isHttp then 80 else 443 }

  /** The port part after the host: none, an empty one, or a number of at most 16 bits. */
  function ParsePort(s: string, isHttp: bool): Option<Option<nat>> {
    if s == "" then Some(None)
    else if s[0] != ':' || !AllDigits(s[1..]) then None
    else if s[1..] == "" then Some(None)
    else
      var n := DecimalValue(s[1..]);
      if n > 65535 then None
      else Some(if n == DefaultPort(isHttp) then None else Some(n))
  }

  /** `accepted` says which hosts the host parser of the URL standard takes; that parser is not part of this model. */
  function ParseUrl(s: string, accepted: string -> bool): Option<Url> {
    if "http://" <= s then ParseAuthority(s[7..], true, accepted)
    else if "https://" <= s then ParseAuthority(s[8..], false, accepted)
    else None
  }

  function ParseAuthority(s: string, isHttp: bool, accepted: string -> bool): Option<Url> {
    var (host, rest) := TakeHost(s);
    if host == "" || !accepted(host) then None
    else
      var port :- ParsePort(rest, isHttp);
      Some(Url(isHttp, host, port))
  }

  lemma {:induction false} TakeNameReads(host: string, rest: string)
    requires HostChars(host) && (rest == "" || !HostChar(rest[0]))
    ensures TakeName(host + rest) == (host, rest)
  {
    if host == "" {
      assert host + rest == rest;
    } else {
      assert (host + rest)[1..] == host[1..] + rest;
      TakeNameReads(host[1..], rest);
      assert host == [host[0]] + host[1..];
    }
  }

  lemma {:induction false} TakeBracketedReads(inner: string, rest: string)
    requires BracketChars(inner)
    ensures TakeBracketed(inner + ("]" + rest)) == Some((inner, rest))
  {
    var s := inner + ("]" + rest);
    if inner == "" {
      assert s[0] == ']' && s[1..] == rest;
    } else {
      assert s[0] == inner[0] && s[1..] == inner[1..] + ("]" + rest);
      TakeBracketedReads(inner[1..], rest);
      assert inner == [inner[0]] + inner[1..];
    }
  }

  lemma TakeHostReads(host: string, rest: string)
    requires HostText(host) && host != "" && (rest == "" || rest[0] == ':')
    ensures TakeHost(host + rest) == (host, rest)
  {
    if HostChars(host) {
      TakeNameReads(host, rest);
      assert HostChar((host + rest)[0]);
    } else {
      var inner := host[1..|host| - 1];
      assert host == "[" + inner + "]";
      assert (host + rest)[1..] == inner + ("]" + rest);
      TakeBracketedReads(inner, rest);
    }
  }

  /** The port the SDK recovers from a template's origin. */
  function SeenPort(m: Meaning): Option<u16> {
    if m.port == Some(DefaultPort(m.isHttp)) then None else m.port
  }

  lemma PortReads(m: Meaning)
    ensures ParsePort(PortText(m.port), m.isHttp) == Some(SeenPort(m))
  {
    if m.port.Some? {
      assert PortText(m.port)[1..] == Decimal(m.port.value);
      DecimalReads(m.port.value);
    }
  }

  lemma SchemeReads(isHttp: bool, rest: string, accepted: string -> bool)
    ensures ParseUrl(Scheme(isHttp) + rest, accepted) == ParseAuthority(rest, isHttp, accepted)
  {
    var s := Scheme(isHttp) + rest;
    if isHttp {
      assert s[..7] == "http://" && s[7..] == rest;
    } else {
      assert s[4] == 's';
      assert s[..8] == "https://" && s[8..] == rest;
    }
  }

  lemma OriginReads(m: Meaning, rpId: string, accepted: string -> bool)
    requires rpId != "" && HostText(rpId) && accepted(rpId)
    ensures ParseUrl(Origin(m, rpId), accepted) == Some(Url(m.isHttp, rpId, SeenPort(m)))
  {
    var rest := rpId + PortText(m.port);
    assert Origin(m, rpId) == Scheme(m.isHttp) + rest;
    SchemeReads(m.isHttp, rest, accepted);
    PortReads(m);
    TakeHostReads(rpId, PortText(m.port));
  }

  // ----- the parameters of a document

  function AuthTypeNamed(v: Option<Json>): Option<AuthType> {
    if v == Some(Text("webauthn.create")) then Some(Create)
    else if v == Some(Text("webauthn.get")) then Some(Get)
    else None
  }

  /** The crossOrigin member: a boolean, null, or absent. */
  function CrossOriginValue(v: Option<Json>): Option<bool> {
    match v
    case None => Some(false)
    case Some(Null) => Some(false)
    case Some(Boolean(b)) => Some(b)
    case Some(Text(_)) => None
  }

  function ExtraValue(v: Option<Json>): Option<bool> {
    if v.None? || v.value == Null then Some(false)
    else if v.value == Text(GOOGLE_EXTRA) then Some(true)
    else None
  }

  function ParamsOf(o: seq<Member>, accepted: string -> bool): Option<Params> {
    var authType :- AuthTypeNamed(Lookup(o, "type"));
    var crossOrigin :- CrossOriginValue(Lookup(o, "crossOrigin"));
    var extra :- ExtraValue(Lookup(o, "other_keys_can_be_added_here"));
    var origin :- Lookup(o, "origin");
    if !origin.Text? then None
    else
      var url :- ParseUrl(origin.text, accepted);
      if url.port.Some? && !(1 <= url.port.value <= 65535) then None
      else Some(CreateParams(authType, crossOrigin, Lookup(o, "crossOrigin").Some?, url.isHttp, extra, url.port))
  }

  function ParseParams(clientDataJson: bytes, accepted: string -> bool): Option<Params> {
    var text :- DecodeUtf8(clientDataJson);
    var json :- ParseObject(text);
    ParamsOf(json, accepted)
  }

  // ----- the template as an object

  function CrossOriginMembers(c: Option<bool>): seq<Member> {
    match c
    case None => []
    case Some(b) => [Member("crossOrigin", Boolean(b))]
  }

  function ExtraMembers(extra: bool): seq<Member> {
    if extra then [Member("other_keys_can_be_added_here", Text(GOOGLE_EXTRA))] else []
  }

  function Required(m: Meaning, rpId: string, challenge: bytes): seq<Member> {
    [Member("type", Text(TypeText(m.authType))),
     Member("challenge", Text(EncodeBase64Url(challenge))),
     Member("origin", Text(Origin(m, rpId)))]
  }

  function Fields(m: Meaning, rpId: string, challenge: bytes): seq<Member> {
    Required(m, rpId, challenge) + (CrossOriginMembers(m.crossOrigin) + ExtraMembers(m.extra))
  }

  lemma TextMember(key: string, text: string)
    ensures MemberText(Member(key, Text(text))) == "\"" + key + "\":\"" + text + "\""
  {
    assert MemberText(Member(key, Text(text))) == "\"" + key + "\":" + "\"" + text + "\"";
    assert "\":" + "\"" == "\":\"";
    assert "\"" + key + "\":" + "\"" == "\"" + key + ("\":" + "\"");
  }

  lemma ExtraIsMember(extra: bool)
    ensures RestText(ExtraMembers(extra)) == ExtraText(extra) + "}"
  {
    if extra {
      var key := "other_keys_can_be_added_here";
      TextMember(key, GOOGLE_EXTRA);
      ExtraPrefix();
      var m := ExtraMembers(true);
      assert m[1..] == [];
      assert RestText(m) == "," + (MemberText(m[0]) + "}");
      RegroupMember("\"" + key + "\":\"", GOOGLE_EXTRA, "\"");
    }
  }

  lemma CommaQuote(key: string, after: string)
    ensures "," + ("\"" + key + after) == ",\"" + (key + after)
  {
  }

  lemma ExtraPrefix()
    ensures "," + ("\"" + "other_keys_can_be_added_here" + "\":\"") == ",\"other_keys_can_be_added_here\":\""
  {
    CommaQuote("other_keys_can_be_added_here", "\":\"");
  }

  lemma RegroupMember(prefix: string, text: string, quote: string)
    ensures "," + ((prefix + text + quote) + "}") == ("," + prefix) + text + quote + "}"
  {
  }

  lemma {:induction false} CrossIsMember(c: Option<bool>, rest: seq<Member>)
    ensures RestText(CrossOriginMembers(c) + rest) == CrossOriginText(c) + RestText(rest)
  {
    match c
    case None =>
      assert CrossOriginMembers(c) + rest == rest;
      assert "" + RestText(rest) == RestText(rest);
    case Some(b) =>
      var o := CrossOriginMembers(c) + rest;
      assert o[1..] == rest;
      CrossMember(b);
      assert RestText(o) == "," + (MemberText(Member("crossOrigin", Boolean(b))) + RestText(rest));
      assert RestText(o) == "," + MemberText(Member("crossOrigin", Boolean(b))) + RestText(rest);
  }

  lemma CrossMember(b: bool)
    ensures "," + MemberText(Member("crossOrigin", Boolean(b))) == CrossOriginText(Some(b))
  {
    CrossKey(if b then "true" else "false");
    CrossLiterals();
  }

  lemma CrossKey(value: string)
    ensures "," + ("\"" + ("crossOrigin" + ("\":" + value))) == ",\"crossOrigin\":" + value
  {
  }

  lemma CrossLiterals()
    ensures ",\"crossOrigin\":" + "true" == ",\"crossOrigin\":true"
    ensures ",\"crossOrigin\":" + "false" == ",\"crossOrigin\":false"
  {
  }

  lemma TailIsMembers(m: Meaning)
    ensures RestText(CrossOriginMembers(m.crossOrigin) + ExtraMembers(m.extra)) == Tail(m)
  {
    CrossIsMember(m.crossOrigin, ExtraMembers(m.extra));
    ExtraIsMember(m.extra);
  }

  lemma Punctuation()
    ensures "{" + ("\"" + "type" + "\":\"") == BEFORE_TYPE
    ensures "\"" + ("," + ("\"" + "challenge" + "\":\"")) == BEFORE_CHALLENGE
    ensures "\"" + ("," + ("\"" + "origin" + "\":\"")) == BEFORE_ORIGIN
  {
  }

  /** Regrouping text member by member. */
  lemma ThreeMembers(p: string, k1: string, t1: string, q: string, c: string, k2: string, t2: string, k3: string,
                     t3: string, rest: string)
    ensures p + ((k1 + t1 + q) + (c + ((k2 + t2 + q) + (c + ((k3 + t3 + q) + rest)))))
            == (p + k1) + (t1 + ((q + (c + k2)) + (t2 + ((q + (c + k3)) + (t3 + (q + rest))))))
  {
    var third := c + ((k3 + t3 + q) + rest);
    assert third == (c + k3) + (t3 + (q + rest));
    assert q + third == (q + (c + k3)) + (t3 + (q + rest));
    var second := c + ((k2 + t2 + q) + third);
    assert second == (c + k2) + (t2 + (q + third));
    assert q + second == (q + (c + k2)) + (t2 + (q + third));
    assert p + ((k1 + t1 + q) + second) == (p + k1) + (t1 + (q + second));
  }

  lemma {:induction false} RestOfRequired(a: Member, b: Member, c: Member, rest: seq<Member>)
    ensures ObjectText([a, b, c] + rest)
            == "{" + (MemberText(a) + ("," + (MemberText(b) + ("," + (MemberText(c) + RestText(rest))))))
  {
    var o := [a, b, c] + rest;
    assert o[1..] == [b, c] + rest;
    assert ([b, c] + rest)[1..] == [c] + rest;
    assert ([c] + rest)[1..] == rest;
    assert RestText([c] + rest) == "," + (MemberText(c) + RestText(rest));
    assert RestText([b, c] + rest) == "," + (MemberText(b) + RestText([c] + rest));
  }

  lemma TemplateIsObject(m: Meaning, rpId: string, challenge: bytes)
    ensures ObjectText(Fields(m, rpId, challenge)) == Template(m, rpId, challenge)
  {
    var r := Required(m, rpId, challenge);
    var rest := CrossOriginMembers(m.crossOrigin) + ExtraMembers(m.extra);
    RestOfRequired(r[0], r[1], r[2], rest);
    TextMember("type", TypeText(m.authType));
    TextMember("challenge", EncodeBase64Url(challenge));
    TextMember("origin", Origin(m, rpId));
    TailIsMembers(m);
    Punctuation();
    ThreeMembers("{", "\"" + "type" + "\":\"", TypeText(m.authType), "\"", ",",
                 "\"" + "challenge" + "\":\"", EncodeBase64Url(challenge),
                 "\"" + "origin" + "\":\"", Origin(m, rpId), Tail(m));
  }

  // ----- round trips

  lemma PlainConcat(s: string, t: string)
    requires Plain(s) && Plain(t)
    ensures Plain(s + t)
  {
  }

  lemma HostIsPlain(host: string)
    requires HostText(host)
    ensures Plain(host)
  {
    if !HostChars(host) {
      var inner := host[1..|host| - 1];
      assert Plain(inner);
      assert host == "[" + (inner + "]");
      PlainConcat(inner, "]");
      PlainConcat("[", inner + "]");
    }
  }

  lemma PortIsPlain(port: Option<u16>)
    ensures Plain(PortText(port))
  {
    if port.Some? { PlainConcat(":", Decimal(port.value)); }
  }

  lemma SchemeIsPlain(isHttp: bool)
    ensures Plain(Scheme(isHttp))
  {
  }

  lemma OriginIsPlain(m: Meaning, rpId: string)
    requires HostText(rpId)
    ensures Plain(Origin(m, rpId))
  {
    SchemeIsPlain(m.isHttp);
    HostIsPlain(rpId);
    PortIsPlain(m.port);
    PlainConcat(Scheme(m.isHttp), rpId);
    PlainConcat(Scheme(m.isHttp) + rpId, PortText(m.port));
  }

  lemma Base64UrlIsPlain(b: bytes)
    ensures Plain(EncodeBase64Url(b))
  {
    var t := EncodeBase64Url(b);
    forall i | 0 <= i < |t| ensures PlainChar(t[i]) { PlainSymbol(Sextets(b)[i]); }
  }

  lemma TypeIsPlain(t: AuthType)
    ensures Plain(TypeText(t))
  {
  }

  lemma PlainSymbol(x: sextet)
    ensures PlainChar(Symbol(x))
  {
  }

  lemma PlainExtraStart()
    ensures Plain(GOOGLE_EXTRA_1)
  {
  }

  lemma PlainExtra()
    ensures Plain(GOOGLE_EXTRA)
  {
    PlainExtraStart();
    PlainConcat(GOOGLE_EXTRA_1, GOOGLE_EXTRA_2);
    PlainConcat(GOOGLE_EXTRA_1 + GOOGLE_EXTRA_2, GOOGLE_EXTRA_3);
  }

  lemma PlainLists(a: seq<Member>, b: seq<Member>)
    requires forall f :: f in a ==> PlainMember(f)
    requires forall f :: f in b ==> PlainMember(f)
    ensures forall f :: f in a + b ==> PlainMember(f)
  {
  }

  lemma RequiredArePlain(m: Meaning, rpId: string, challenge: bytes)
    requires HostText(rpId)
    ensures forall f :: f in Required(m, rpId, challenge) ==> PlainMember(f)
  {
    TypeIsPlain(m.authType);
    Base64UrlIsPlain(challenge);
    OriginIsPlain(m, rpId);
    assert Plain("type") && Plain("challenge") && Plain("origin");
  }

  lemma OptionalArePlain(m: Meaning)
    ensures forall f :: f in CrossOriginMembers(m.crossOrigin) ==> PlainMember(f)
    ensures forall f :: f in ExtraMembers(m.extra) ==> PlainMember(f)
  {
    PlainExtra();
    assert Plain("crossOrigin");
    assert Plain("other_keys_can_be_added_here");
  }

  lemma FieldsArePlain(m: Meaning, rpId: string, challenge: bytes)
    requires HostText(rpId)
    ensures forall f :: f in Fields(m, rpId, challenge) ==> PlainMember(f)
  {
    RequiredArePlain(m, rpId, challenge);
    OptionalArePlain(m);
    PlainLists(CrossOriginMembers(m.crossOrigin), ExtraMembers(m.extra));
    PlainLists(Required(m, rpId, challenge), CrossOriginMembers(m.crossOrigin) + ExtraMembers(m.extra));
  }

  lemma {:induction false} LookupLast(o: seq<Member>, last: Member, key: string)
    ensures Lookup(o + [last], key) == if last.key == key then Some(last.value) else Lookup(o, key)
  {
    assert (o + [last])[..|o|] == o;
  }

  lemma KeysDiffer()
    ensures |"type"| == 4 && |"challenge"| == 9 && |"origin"| == 6 && |"crossOrigin"| == 11
    ensures |"other_keys_can_be_added_here"| == 28
  {
  }

  lemma {:induction false} LookupRequired(m: Meaning, rpId: string, challenge: bytes, key: string)
    ensures Lookup(Required(m, rpId, challenge), key) ==
              if key == "origin" then Some(Text(Origin(m, rpId)))
              else if key == "challenge" then Some(Text(EncodeBase64Url(challenge)))
              else if key == "type" then Some(Text(TypeText(m.authType)))
              else None
  {
    var r := Required(m, rpId, challenge);
    LookupLast([], r[0], key);
    LookupLast([r[0]], r[1], key);
    LookupLast([r[0], r[1]], r[2], key);
    assert r == [r[0], r[1]] + [r[2]] && [r[0], r[1]] == [r[0]] + [r[1]] && [r[0]] == [] + [r[0]];
  }

  lemma {:induction false} LookupFields(m: Meaning, rpId: string, challenge: bytes, key: string)
    ensures Lookup(Fields(m, rpId, challenge), key) ==
              if m.extra && key == "other_keys_can_be_added_here" then Some(Text(GOOGLE_EXTRA))
              else if m.crossOrigin.Some? && key == "crossOrigin" then Some(Boolean(m.crossOrigin.value))
              else Lookup(Required(m, rpId, challenge), key)
  {
    var r, c, e := Required(m, rpId, challenge), CrossOriginMembers(m.crossOrigin), ExtraMembers(m.extra);
    assert r + (c + e) == r + c + e;
    if m.extra { LookupLast(r + c, e[0], key); } else { assert r + c + e == r + c; }
    if m.crossOrigin.Some? { LookupLast(r, c[0], key); } else { assert r + c == r; }
  }

  lemma TypesRead(t: AuthType)
    ensures AuthTypeNamed(Some(Text(TypeText(t)))) == Some(t)
  {
    assert |"webauthn.create"| == 15 && |"webauthn.get"| == 12;
  }

  lemma FieldLookups(m: Meaning, rpId: string, challenge: bytes)
    ensures var o := Fields(m, rpId, challenge);
            && Lookup(o, "type") == Some(Text(TypeText(m.authType)))
            && Lookup(o, "origin") == Some(Text(Origin(m, rpId)))
            && Lookup(o, "crossOrigin")
               == (if m.crossOrigin.Some? then Some(Boolean(m.crossOrigin.value)) else None)
            && Lookup(o, "other_keys_can_be_added_here") == if m.extra then Some(Text(GOOGLE_EXTRA)) else None
  {
    KeysDiffer();
    LookupFields(m, rpId, challenge, "type"); LookupRequired(m, rpId, challenge, "type");
    LookupFields(m, rpId, challenge, "crossOrigin"); LookupRequired(m, rpId, challenge, "crossOrigin");
    LookupFields(m, rpId, challenge, "other_keys_can_be_added_here");
    LookupRequired(m, rpId, challenge, "other_keys_can_be_added_here");
    LookupFields(m, rpId, challenge, "origin"); LookupRequired(m, rpId, challenge, "origin");
  }

  lemma {:induction false} MeaningReads(o: seq<Member>, m: Meaning, origin: string, host: string,
                                        accepted: string -> bool)
    requires Lookup(o, "type") == Some(Text(TypeText(m.authType)))
    requires Lookup(o, "origin") == Some(Text(origin))
    requires Lookup(o, "crossOrigin") == if m.crossOrigin.Some? then Some(Boolean(m.crossOrigin.value)) else None
    requires Lookup(o, "other_keys_can_be_added_here") == if m.extra then Some(Text(GOOGLE_EXTRA)) else None
    requires ParseUrl(origin, accepted) == Some(Url(m.isHttp, host, SeenPort(m)))
    ensures ParamsOf(o, accepted) == if m.port == Some(0) then None else Some(Pack(m.(port := SeenPort(m))))
  {
    TypesRead(m.authType);
    PackIsCreate(m.(port := SeenPort(m)));
  }

  lemma PackIsCreate(m: Meaning)
    ensures Pack(m)
            == CreateParams(m.authType, m.crossOrigin == Some(true), m.crossOrigin.Some?, m.isHttp, m.extra, m.port)
  {
  }

  /** What the SDK reads back from the fields of a template. */
  lemma FieldsRead(m: Meaning, rpId: string, challenge: bytes, accepted: string -> bool)
    requires rpId != "" && HostText(rpId) && accepted(rpId)
    ensures ParamsOf(Fields(m, rpId, challenge), accepted)
            == if m.port == Some(0) then None else Some(Pack(m.(port := SeenPort(m))))
  {
    FieldLookups(m, rpId, challenge);
    OriginReads(m, rpId, accepted);
    MeaningReads(Fields(m, rpId, challenge), m, Origin(m, rpId), rpId, accepted);
  }

  /** Parsing a rebuilt document: port 0 is refused, and a default port is forgotten. */
  lemma ParseOfTemplate(m: Meaning, rpId: string, challenge: bytes, accepted: string -> bool)
    requires rpId != "" && HostText(rpId) && accepted(rpId)
    ensures ParseParams(Utf8(Template(m, rpId, challenge)), accepted)
            == if m.port == Some(0) then None else Some(Pack(m.(port := SeenPort(m))))
  {
    Utf8Decodes(Template(m, rpId, challenge));
    TemplateIsObject(m, rpId, challenge);
    FieldsArePlain(m, rpId, challenge);
    ObjectRoundTrip(Fields(m, rpId, challenge));
    FieldsRead(m, rpId, challenge, accepted);
  }

  /** A port the browser would write: none, or a nonzero one that is not the scheme's default. */
  predicate CanonicalPort(p: Params) {
    p.port.None? || (p.port.value != 0 && p.port.value != if IsHttp(p) then 80 else 443)
  }

  /** Parsing what was rebuilt returns the parameters exactly when they are canonical. */
  lemma ParamsRoundTrip(p: Params, rpId: string, challenge: bytes, accepted: string -> bool)
    requires rpId != "" && HostText(rpId) && accepted(rpId)
    ensures ParseParams(ReconstructTs(p, rpId, challenge), accepted) == Some(p)
            <==> CanonicalFlags(p) && CanonicalPort(p)
  {
    var m := MeaningOf(p);
    TsIsTemplate(p, rpId, challenge);
    ParseOfTemplate(m, rpId, challenge, accepted);
    PackInverts(p);
    if CanonicalPort(p) { assert m.(port := SeenPort(m)) == m; }
    else if m.port != Some(0) { assert Pack(m.(port := SeenPort(m))).port.None?; }
  }

  /** Rebuilding what was parsed returns the template bytes exactly when the port is canonical. */
  lemma BytesRoundTrip(p: Params, rpId: string, challenge: bytes, accepted: string -> bool)
    requires rpId != "" && HostText(rpId) && accepted(rpId)
    ensures (var parsed := ParseParams(ReconstructTs(p, rpId, challenge), accepted);
             parsed.Some? && ReconstructTs(parsed.value, rpId, challenge) == ReconstructTs(p, rpId, challenge))
            <==> CanonicalPort(p)
  {
    var m := MeaningOf(p);
    TsIsTemplate(p, rpId, challenge);
    ParseOfTemplate(m, rpId, challenge, accepted);
    if m.port != Some(0) {
      var q := Pack(m.(port := SeenPort(m)));
      TsIsTemplate(q, rpId, challenge);
      Utf8Decodes(Template(m, rpId, challenge));
      Utf8Decodes(Template(MeaningOf(q), rpId, challenge));
      TemplateIsInjective(m, challenge, MeaningOf(q), challenge, rpId);
    }
  }
}
