// The rebuilt document determines everything that went into it.
module TemplateInjective {
  import opened Basics
  import opened Text
  import opened ClientData

  predicate NoQuote(s: string) { '"' !in s }

  predicate StartsWithQuote(s: string) { s != "" && s[0] == '"' }

  lemma FirstQuote(a: string, b: string, w: string)
    requires NoQuote(a) && StartsWithQuote(b) && w == a + b
    ensures |a| < |w| && w[|a|] == '"'
    ensures forall i :: 0 <= i < |a| ==> w[i] != '"'
  {
    forall i | 0 <= i < |a| ensures w[i] != '"' { assert a[i] in a; }
  }

  /** The first quote ends a quote-free prefix. */
  lemma SplitAtQuote(a: string, b: string, c: string, d: string)
    requires NoQuote(a) && NoQuote(c) && StartsWithQuote(b) && StartsWithQuote(d)
    requires a + b == c + d
    ensures a == c && b == d
  {
    FirstQuote(a, b, a + b);
    FirstQuote(c, d, c + d);
    Cut(a, b, c, d);
  }

  lemma Base64HasNoQuote(b: bytes)
    ensures NoQuote(EncodeBase64Url(b))
  {
    forall c | c in EncodeBase64Url(b) ensures c != '"' {
      var i :| 0 <= i < |EncodeBase64Url(b)| && EncodeBase64Url(b)[i] == c;
      SymbolsInvert(Sextets(b)[i], 'A');
    }
  }

  lemma PortHasNoQuote(port: Option<u16>)
    ensures NoQuote(PortText(port))
  {
    if port.Some? {
      assert AllDigits(Decimal(port.value));
    }
  }

  lemma PortTextInjective(p: Option<u16>, q: Option<u16>)
    requires PortText(p) == PortText(q)
    ensures p == q
  {
    if p.Some? && q.Some? {
      Cut(":", Decimal(p.value), ":", Decimal(q.value));
      DecimalReads(p.value);
      DecimalReads(q.value);
    }
  }

  /** The two schemes already differ at their fifth character. */
  lemma SchemesDiffer(h: bool, x: string, h': bool, x': string)
    requires Scheme(h) + x == Scheme(h') + x'
    ensures h == h' && x == x'
  {
    assert (Scheme(h) + x)[4] == Scheme(h)[4];
    assert (Scheme(h') + x')[4] == Scheme(h')[4];
    Cut(Scheme(h), x, Scheme(h'), x');
  }

  lemma CrossOriginLength(c: Option<bool>)
    ensures |CrossOriginText(c)| == if c.None? then 0 else if c.value then 19 else 20
  {
  }

  lemma ExtraLength(e: bool)
    ensures if e then |ExtraText(e)| > 20 else |ExtraText(e)| == 0
  {
  }

  /** The length of the tail tells its fields. */
  lemma TailInjective(m: Meaning, n: Meaning)
    requires Tail(m) == Tail(n)
    ensures m.crossOrigin == n.crossOrigin && m.extra == n.extra
  {
    CrossOriginLength(m.crossOrigin); CrossOriginLength(n.crossOrigin);
    ExtraLength(m.extra); ExtraLength(n.extra);
    assert |Tail(m)| == |CrossOriginText(m.crossOrigin)| + |ExtraText(m.extra)| + 1;
    assert |Tail(n)| == |CrossOriginText(n.crossOrigin)| + |ExtraText(n.extra)| + 1;
  }

  lemma OriginThenTail(m: Meaning, rpId: string)
    ensures Origin(m, rpId) + (QUOTE + Tail(m)) == Scheme(m.isHttp) + (rpId + (PortText(m.port) + (QUOTE + Tail(m))))
  {
    var s, p, q := Scheme(m.isHttp), PortText(m.port), QUOTE + Tail(m);
    RightNested4(s, rpId, p, q);
  }

  lemma RightNested4(a: string, b: string, c: string, d: string)
    ensures a + b + c + d == a + (b + (c + d))
  {
    assert a + b + c + d == (a + b) + (c + d);
  }

  lemma OriginInjective(m: Meaning, n: Meaning, rpId: string)
    requires Origin(m, rpId) + (QUOTE + Tail(m)) == Origin(n, rpId) + (QUOTE + Tail(n))
    ensures m.isHttp == n.isHttp && m.port == n.port && m.crossOrigin == n.crossOrigin && m.extra == n.extra
  {
    OriginThenTail(m, rpId); OriginThenTail(n, rpId);
    var x, y := PortText(m.port) + (QUOTE + Tail(m)), PortText(n.port) + (QUOTE + Tail(n));
    SchemesDiffer(m.isHttp, rpId + x, n.isHttp, rpId + y);
    Cut(rpId, x, rpId, y);
    PortHasNoQuote(m.port); PortHasNoQuote(n.port);
    SplitAtQuote(PortText(m.port), QUOTE + Tail(m), PortText(n.port), QUOTE + Tail(n));
    PortTextInjective(m.port, n.port);
    Cut(QUOTE, Tail(m), QUOTE, Tail(n));
    TailInjective(m, n);
  }

  lemma TypeTextInjective(t: AuthType, u: AuthType)
    requires TypeText(t) == TypeText(u)
    ensures t == u
  {
    assert |TypeText(t)| == |TypeText(u)|;
  }

  /** For a fixed relying party, equal documents come from equal challenges and equal meanings. */
  lemma TemplateIsInjective(m: Meaning, challenge: bytes, n: Meaning, challenge': bytes, rpId: string)
    ensures Template(m, rpId, challenge) == Template(n, rpId, challenge') <==> m == n && challenge == challenge'
  {
    if Template(m, rpId, challenge) == Template(n, rpId, challenge') {
      var x, y := Origin(m, rpId) + (QUOTE + Tail(m)), Origin(n, rpId) + (QUOTE + Tail(n));
      var b, c := EncodeBase64Url(challenge), EncodeBase64Url(challenge');
      var t, u := BEFORE_CHALLENGE + (b + (BEFORE_ORIGIN + x)), BEFORE_CHALLENGE + (c + (BEFORE_ORIGIN + y));
      Cut(BEFORE_TYPE, TypeText(m.authType) + t, BEFORE_TYPE, TypeText(n.authType) + u);
      SplitAtQuote(TypeText(m.authType), t, TypeText(n.authType), u);
      TypeTextInjective(m.authType, n.authType);
      Cut(BEFORE_CHALLENGE, b + (BEFORE_ORIGIN + x), BEFORE_CHALLENGE, c + (BEFORE_ORIGIN + y));
      Base64HasNoQuote(challenge); Base64HasNoQuote(challenge');
      SplitAtQuote(b, BEFORE_ORIGIN + x, c, BEFORE_ORIGIN + y);
      Base64UrlInjective(challenge, challenge');
      Cut(BEFORE_ORIGIN, x, BEFORE_ORIGIN, y);
      OriginInjective(m, n, rpId);
    }
  }

  /** The on-chain form: equal rebuilt bytes mean equal challenge and equal document fields. */
  lemma ReconstructionDetermines(p: Params, challenge: bytes, q: Params, challenge': bytes, rpId: bytes)
    requires Reconstruct(p, rpId, challenge).Ok?
    ensures Reconstruct(p, rpId, challenge) == Reconstruct(q, rpId, challenge')
            <==> challenge == challenge' && MeaningOf(p) == MeaningOf(q)
  {
    var id := DecodeUtf8(rpId).value;
    var s, t := Template(MeaningOf(p), id, challenge), Template(MeaningOf(q), id, challenge');
    Utf8Decodes(s);
    Utf8Decodes(t);
    TemplateIsInjective(MeaningOf(p), challenge, MeaningOf(q), challenge', id);
  }
}
