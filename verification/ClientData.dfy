// The clientDataJSON template (section 5.8.1.1 of WebAuthn Level 2) as the program and the
// TypeScript SDK rebuild it from one flag byte and an optional port.
module ClientData {
  import opened Basics
  import opened Text

  datatype AuthType = Create | Get

  /** The packed parameters. */
  datatype Params = Params(typeAndFlags: byte, port: Option<u16>)

  // ----- flags; a test `v & FLAG != 0` reads one binary digit

  function AuthTypeOf(p: Params): AuthType {
    if p.typeAndFlags / 0x10 == 1 then Get else Create
  }

  predicate IsCrossOrigin(p: Params) { p.typeAndFlags % 2 == 1 }

  predicate IsHttp(p: Params) { p.typeAndFlags / 0x02 % 2 == 1 }

  predicate HasGoogleExtra(p: Params) { p.typeAndFlags / 0x04 % 2 == 1 }

  predicate OmitsCrossOrigin(p: Params) { p.typeAndFlags / 0x08 % 2 == 1 }

  /** What the parameters say about the document. */
  datatype Meaning = Meaning(authType: AuthType, crossOrigin: Option<bool>, isHttp: bool, extra: bool,
                             port: Option<u16>)

  function MeaningOf(p: Params): Meaning {
    Meaning(AuthTypeOf(p), if OmitsCrossOrigin(p) then None else Some(IsCrossOrigin(p)), IsHttp(p),
            HasGoogleExtra(p), p.port)
  }

  function Bit(b: bool): (r: nat)
    ensures r <= 1
  {
    if b then 1 else 0
  }

  /** A flag byte from its five digits. */
  function Flags(get: bool, omit: bool, extra: bool, http: bool, cross: bool): (v: byte)
    ensures v / 0x10 == Bit(get) && (v / 0x08 % 2 == 1) == omit && (v / 0x04 % 2 == 1) == extra
    ensures (v / 0x02 % 2 == 1) == http && (v % 2 == 1) == cross
  {
    Bit(get) * 0x10 + Bit(omit) * 0x08 + Bit(extra) * 0x04 + Bit(http) * 0x02 + Bit(cross)
  }

  /** The flag byte both constructors build: a crossOrigin value is kept even when the field is omitted. */
  function CreateParams(authType: AuthType, crossOrigin: bool, includeCrossOrigin: bool, isHttp: bool,
                        hasGoogleExtra: bool, port: Option<u16>): (p: Params)
    ensures MeaningOf(p) == Meaning(authType, if includeCrossOrigin then Some(crossOrigin) else None, isHttp,
                                    hasGoogleExtra, port)
    ensures IsCrossOrigin(p) == crossOrigin && p.typeAndFlags / 0x10 <= 1
  {
    Params(Flags(authType == Get, !includeCrossOrigin, hasGoogleExtra, isHttp, crossOrigin), port)
  }

  /** The flag byte with nothing set that the document does not say. */
  function Pack(m: Meaning): (p: Params)
    ensures MeaningOf(p) == m
  {
    match m.crossOrigin
    case None => CreateParams(m.authType, false, false, m.isHttp, m.extra, m.port)
    case Some(crossOrigin) => CreateParams(m.authType, crossOrigin, true, m.isHttp, m.extra, m.port)
  }

  /** Type nibble 0 or 1, and no crossOrigin value when the field is omitted. */
  predicate CanonicalFlags(p: Params) {
    p.typeAndFlags / 0x10 <= 1 && (OmitsCrossOrigin(p) ==> !IsCrossOrigin(p))
  }

  lemma FiveDigits(v: byte)
    requires v / 0x10 <= 1
    ensures v == Flags(v / 0x10 == 1, v / 0x08 % 2 == 1, v / 0x04 % 2 == 1, v / 0x02 % 2 == 1, v % 2 == 1)
  {
    assert v / 0x02 / 2 == v / 0x04 && v / 0x04 / 2 == v / 0x08 && v / 0x08 / 2 == v / 0x10;
  }

  /** Packing inverts reading exactly on the canonical flag bytes. */
  lemma PackInverts(p: Params)
    ensures Pack(MeaningOf(p)) == p <==> CanonicalFlags(p)
  {
    if p.typeAndFlags / 0x10 <= 1 { FiveDigits(p.typeAndFlags); }
  }

  // `value | flag` for one binary digit
  function Or01(v: byte): byte { if v % 2 == 1 then v else v + 0x01 }
  function Or02(v: byte): byte { if v / 0x02 % 2 == 1 then v else v + 0x02 }
  function Or04(v: byte): byte { if v / 0x04 % 2 == 1 then v else v + 0x04 }
  function Or08(v: byte): byte { if v / 0x08 % 2 == 1 then v else v + 0x08 }

  /** The Rust constructor. */
  method NewWithOptionalCrossOrigin(authType: AuthType, crossOrigin: bool, hasCrossOrigin: bool, isHttp: bool,
                                    hasGoogleExtra: bool, port: Option<u16>) returns (p: Params)
    ensures p == CreateParams(authType, crossOrigin, hasCrossOrigin, isHttp, hasGoogleExtra, port)
  {
    var value: byte := match authType case Create => 0x00 case Get => 0x10;
    ghost var t, c, h, e := Bit(authType == Get), Bit(crossOrigin), Bit(isHttp), Bit(hasGoogleExtra);
    if crossOrigin { value := Or01(value); }
    assert value == t * 0x10 + c;
    if isHttp { value := Or02(value); }
    assert value == t * 0x10 + h * 0x02 + c;
    if hasGoogleExtra { value := Or04(value); }
    assert value == t * 0x10 + e * 0x04 + h * 0x02 + c;
    if !hasCrossOrigin { value := Or08(value); }
    p := Params(value, port);
  }

  /** The TypeScript constructor. */
  method CreateClientDataJsonReconstructionParams(authType: AuthType, crossOrigin: bool, includeCrossOrigin: bool,
                                                  isHttp: bool, hasGoogleExtra: bool, port: Option<u16>)
    returns (p: Params)
    ensures p == CreateParams(authType, crossOrigin, includeCrossOrigin, isHttp, hasGoogleExtra, port)
  {
    var typeAndFlags: byte := if authType == Get then 0x10 else 0x00;
    ghost var t, c, h, e := Bit(authType == Get), Bit(crossOrigin), Bit(isHttp), Bit(hasGoogleExtra);
    if crossOrigin { typeAndFlags := Or01(typeAndFlags); }
    assert typeAndFlags == t * 0x10 + c;
    if isHttp { typeAndFlags := Or02(typeAndFlags); }
    assert typeAndFlags == t * 0x10 + h * 0x02 + c;
    if hasGoogleExtra { typeAndFlags := Or04(typeAndFlags); }
    assert typeAndFlags == t * 0x10 + e * 0x04 + h * 0x02 + c;
    if includeCrossOrigin == false { typeAndFlags := Or08(typeAndFlags); }
    p := Params(typeAndFlags, port);
  }

  // ----- the template as text

  const GOOGLE_EXTRA_1: string := "do not compare clientDataJSON "
  const GOOGLE_EXTRA_2: string := "against a template. See "
  const GOOGLE_EXTRA_3: string := "https://goo.gl/yabPex"
  const GOOGLE_EXTRA: string := GOOGLE_EXTRA_1 + GOOGLE_EXTRA_2 + GOOGLE_EXTRA_3

  function TypeText(t: AuthType): string {
    if t == Get then "webauthn.get" else "webauthn.create"
  }

  function Scheme(isHttp: bool): string {
    if isHttp then "http://" else "https://"
  }

  function PortText(port: Option<u16>): string {
    match port
    case None => ""
    case Some(n) => ":" + Decimal(n)
  }

  function CrossOriginText(crossOrigin: Option<bool>): string {
    match crossOrigin
    case None => ""
    case Some(true) => ",\"crossOrigin\":true"
    case Some(false) => ",\"crossOrigin\":false"
  }

  function ExtraText(extra: bool): string {
    if extra then ",\"other_keys_can_be_added_here\":\"" + GOOGLE_EXTRA + "\"" else ""
  }

  function Origin(m: Meaning, rpId: string): string {
    Scheme(m.isHttp) + rpId + PortText(m.port)
  }

  /** Everything after the origin. */
  function Tail(m: Meaning): string {
    CrossOriginText(m.crossOrigin) + (ExtraText(m.extra) + "}")
  }

  const BEFORE_TYPE: string := "{\"type\":\""
  const BEFORE_CHALLENGE: string := "\",\"challenge\":\""
  const BEFORE_ORIGIN: string := "\",\"origin\":\""
  const QUOTE: string := "\""

  function Template(m: Meaning, rpId: string, challenge: bytes): string {
    BEFORE_TYPE + (TypeText(m.authType) + (BEFORE_CHALLENGE + (EncodeBase64Url(challenge)
      + (BEFORE_ORIGIN + (Origin(m, rpId) + (QUOTE + Tail(m)))))))
  }

  lemma RightNested(a: string, b: string, c: string, d: string, e: string, f: string, g: string, t: string)
    ensures a + b + c + d + e + f + g + t == a + (b + (c + (d + (e + (f + (g + t))))))
  {
    assert a + b + c + d + e + f + g + t == (a + b + c + d + e + f) + (g + t);
    assert (a + b + c + d + e + f) + (g + t) == (a + b + c + d + e) + (f + (g + t));
    assert (a + b + c + d + e) + (f + (g + t)) == (a + b + c + d) + (e + (f + (g + t)));
    assert (a + b + c + d) + (e + (f + (g + t))) == (a + b + c) + (d + (e + (f + (g + t))));
    assert (a + b + c) + (d + (e + (f + (g + t)))) == (a + b) + (c + (d + (e + (f + (g + t)))));
  }

  // ----- the TypeScript reconstruction

  function ReconstructTs(p: Params, rpId: string, challenge: bytes): bytes {
    var protocol := if IsHttp(p) then "http://" else "https://";
    var kind := if AuthTypeOf(p) == Get then "webauthn.get" else "webauthn.create";
    var origin := if p.port.None? then protocol + rpId else protocol + rpId + ":" + Decimal(p.port.value);
    var crossOrigin := if IsCrossOrigin(p) then "true" else "false";
    var base := BEFORE_TYPE + kind + BEFORE_CHALLENGE + EncodeBase64Url(challenge) + BEFORE_ORIGIN + origin + QUOTE
                + (if !OmitsCrossOrigin(p) then ",\"crossOrigin\":" + crossOrigin else "");
    var extra := if HasGoogleExtra(p) then ",\"other_keys_can_be_added_here\":\"" + GOOGLE_EXTRA + "\"" else "";
    Utf8(base) + Utf8(extra) + Utf8("}")
  }

  lemma OriginPieces(scheme: string, rpId: string, digits: string)
    ensures scheme + rpId + ":" + digits == scheme + rpId + (":" + digits)
    ensures scheme + rpId == scheme + rpId + ""
  {
  }

  /** The parts of the template before the crossOrigin field, joined from the left. */
  function TemplateHead(m: Meaning, rpId: string, challenge: bytes): string {
    BEFORE_TYPE + TypeText(m.authType) + BEFORE_CHALLENGE + EncodeBase64Url(challenge) + BEFORE_ORIGIN
    + Origin(m, rpId) + QUOTE
  }

  lemma JoinedIsTemplate(m: Meaning, rpId: string, challenge: bytes)
    ensures TemplateHead(m, rpId, challenge) + CrossOriginText(m.crossOrigin) + ExtraText(m.extra) + "}"
            == Template(m, rpId, challenge)
  {
    TailJoins(TemplateHead(m, rpId, challenge), CrossOriginText(m.crossOrigin), ExtraText(m.extra));
    RightNested(BEFORE_TYPE, TypeText(m.authType), BEFORE_CHALLENGE, EncodeBase64Url(challenge), BEFORE_ORIGIN,
                Origin(m, rpId), QUOTE, Tail(m));
  }

  /** The SDK's concatenation is the template, for all parameters. */
  lemma TsIsTemplate(p: Params, rpId: string, challenge: bytes)
    ensures ReconstructTs(p, rpId, challenge) == Utf8(Template(MeaningOf(p), rpId, challenge))
  {
    var m := MeaningOf(p);
    var base := TemplateHead(m, rpId, challenge) + CrossOriginText(m.crossOrigin);
    TsPieces(p, rpId, challenge);
    Utf8Concat(base, ExtraText(m.extra));
    Utf8Concat(base + ExtraText(m.extra), "}");
    JoinedIsTemplate(m, rpId, challenge);
  }

  lemma TailJoins(head: string, cross: string, extra: string)
    ensures head + cross + extra + "}" == head + (cross + (extra + "}"))
  {
    assert head + cross + extra + "}" == head + cross + (extra + "}");
  }

  lemma OriginIs(p: Params, rpId: string)
    ensures var protocol := if IsHttp(p) then "http://" else "https://";
            (if p.port.None? then protocol + rpId else protocol + rpId + ":" + Decimal(p.port.value))
            == Origin(MeaningOf(p), rpId)
  {
    OriginPieces(Scheme(IsHttp(p)), rpId, if p.port.Some? then Decimal(p.port.value) else "");
  }

  lemma CrossOriginIs(p: Params)
    ensures (if !OmitsCrossOrigin(p) then ",\"crossOrigin\":" + (if IsCrossOrigin(p) then "true" else "false") else "")
            == CrossOriginText(MeaningOf(p).crossOrigin)
  {
    CrossOriginPieces();
  }

  lemma TsPieces(p: Params, rpId: string, challenge: bytes)
    ensures var m := MeaningOf(p);
            ReconstructTs(p, rpId, challenge) ==
            Utf8(TemplateHead(m, rpId, challenge) + CrossOriginText(m.crossOrigin))
            + Utf8(ExtraText(m.extra)) + Utf8("}")
  {
    OriginIs(p, rpId);
    CrossOriginIs(p);
  }

  // ----- the on-chain reconstruction

  /** What the program rebuilds; a relying party id that is not UTF-8 makes it panic. */
  function Reconstruct(p: Params, rpId: bytes, challenge: bytes): Result<bytes> {
    match DecodeUtf8(rpId)
    case None => Err(Panicked)
    case Some(id) => Ok(Utf8(Template(MeaningOf(p), id, challenge)))
  }

  /** The two languages agree byte for byte, for all parameters. */
  lemma {:induction false} Agreement(p: Params, rpId: string, challenge: bytes)
    ensures Reconstruct(p, Utf8(rpId), challenge) == Ok(ReconstructTs(p, rpId, challenge))
  {
    Utf8Decodes(rpId);
    TsIsTemplate(p, rpId, challenge);
  }

  method ReconstructClientDataJson(p: Params, rpId: bytes, challenge: bytes) returns (r: Result<bytes>)
    ensures r == Reconstruct(p, rpId, challenge)
  {
    var challengeB64Url := EncodeBase64Url(challenge);
    var typeStr := match AuthTypeOf(p) case Create => "webauthn.create" case Get => "webauthn.get";
    var prefix := if IsHttp(p) then "http://" else "https://";
    var id := DecodeUtf8(rpId);
    if id.None? { return Err(Panicked); }
    var origin := prefix + id.value;
    if p.port.Some? { origin := prefix + id.value + ":" + Decimal(p.port.value); }
    OriginPieces(prefix, id.value, if p.port.Some? then Decimal(p.port.value) else "");
    assert origin == Origin(MeaningOf(p), id.value);

    var head := WriteHead(typeStr, challengeB64Url, origin);
    var json := AppendTail(p, head, TemplateHead(MeaningOf(p), id.value, challenge));
    JoinedIsTemplate(MeaningOf(p), id.value, challenge);
    return Ok(json);
  }

  /** The fields every document has. */
  method WriteHead(typeStr: string, challengeB64Url: string, origin: string) returns (json: bytes)
    ensures json == Utf8(BEFORE_TYPE + typeStr + BEFORE_CHALLENGE + challengeB64Url + BEFORE_ORIGIN + origin + QUOTE)
  {
    ghost var text := BEFORE_TYPE;
    json := Utf8(BEFORE_TYPE);
    json, text := Append(json, text, typeStr);
    json, text := Append(json, text, BEFORE_CHALLENGE);
    json, text := Append(json, text, challengeB64Url);
    json, text := Append(json, text, BEFORE_ORIGIN);
    json, text := Append(json, text, origin);
    json, text := Append(json, text, QUOTE);
  }

  /** The optional crossOrigin and extra fields and the closing brace. */
  method AppendTail(p: Params, json: bytes, ghost text: string) returns (json': bytes)
    requires json == Utf8(text)
    ensures json' == Utf8(text + CrossOriginText(MeaningOf(p).crossOrigin) + ExtraText(HasGoogleExtra(p)) + "}")
  {
    json' := json;
    ghost var text' := text;
    CrossOriginPieces();
    if !OmitsCrossOrigin(p) {
      var crossOrigin := if IsCrossOrigin(p) then "true" else "false";
      json', text' := Append(json', text', ",\"crossOrigin\":" + crossOrigin);
    } else { assert text' + "" == text'; }
    assert text' == text + CrossOriginText(MeaningOf(p).crossOrigin);
    ghost var before := text';
    if HasGoogleExtra(p) {
      json', text' := Append(json', text', ",\"other_keys_can_be_added_here\":\"" + GOOGLE_EXTRA + "\"");
    } else { assert text' + "" == text'; }
    assert text' == before + ExtraText(HasGoogleExtra(p));
    json', text' := Append(json', text', "}");
  }

  lemma CrossOriginPieces()
    ensures ",\"crossOrigin\":" + "true" == ",\"crossOrigin\":true"
    ensures ",\"crossOrigin\":" + "false" == ",\"crossOrigin\":false"
  {
  }

  /** `json_bytes.extend_from_slice(part.as_bytes())`, keeping track of the text written so far. */
  method Append(json: bytes, ghost text: string, part: string) returns (json': bytes, ghost text': string)
    requires json == Utf8(text)
    ensures json' == json + Utf8(part) && json' == Utf8(text') && text' == text + part
  {
    Utf8Concat(text, part);
    json', text' := json + Utf8(part), text + part;
  }
}
