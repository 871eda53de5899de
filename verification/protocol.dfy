/** The per-request protocol helpers of the scraper in meta.py: response
    decoding, the request counter, the `jazoest` checksum, the random
    `__csr` and `__s` strings and the base request parameters. Randomness
    and clock readings are parameters; `json.loads` is an opaque partial
    decoder. */
module Protocol {
  import opened Maybe
  import opened PyJson
  import opened Text

  // ---------------------------------------------------------------------
  // Response decoding
  // ---------------------------------------------------------------------

  /** The anti-inclusion guard the upstream may put before a JSON body */
  const Guard: string := "for (;;);"

  function StripGuard(body: string): (s: string)
    ensures Guard <= body ==> body == Guard + s
    ensures !(Guard <= body) ==> s == body
  {
    if Guard <= body then body[|Guard|..] else body
  }

  /** `_parse_response`: strip one guard, decode, and fall back to `{}` when
      decoding fails */
  function ParseResponse(body: string, decode: string -> Option<Json>): (r: Json)
    ensures decode(StripGuard(body)).None? ==> r == EmptyObj
    ensures decode(StripGuard(body)).Some? ==> r == decode(StripGuard(body)).value
  {
    match decode(StripGuard(body))
    case None => EmptyObj
    case Some(j) => j
  }

  /** A guarded body parses as the unguarded one, whenever the rest does not
      itself start with the guard */
  lemma GuardTransparent(s: string, decode: string -> Option<Json>)
    requires !(Guard <= s)
    ensures ParseResponse(Guard + s, decode) == ParseResponse(s, decode)
  {
    assert Guard <= Guard + s;
    assert (Guard + s)[|Guard|..] == s;
  }

  /** Only one guard is removed: a doubly guarded body is decoded with the
      second guard still in front */
  lemma OneGuardOnly(s: string, decode: string -> Option<Json>)
    ensures ParseResponse(Guard + Guard + s, decode) == ParseResponse(Guard + s, (t: string) => decode(Guard + t))
  {
    assert Guard <= Guard + Guard + s;
    assert (Guard + Guard + s)[|Guard|..] == Guard + s;
    assert Guard <= Guard + s;
    assert (Guard + s)[|Guard|..] == s;
  }

  /** A body that fails to decode yields an empty dict, never an error */
  lemma UndecodableIsEmpty(body: string, decode: string -> Option<Json>)
    requires decode(StripGuard(body)).None?
    ensures ParseResponse(body, decode) == EmptyObj && !Truthy(ParseResponse(body, decode))
  {
  }

  // ---------------------------------------------------------------------
  // The request counter
  // ---------------------------------------------------------------------

  /** `_get_next_req_id`: the counter (0 while the attribute is unset) goes up
      by one and the id is the letter `97 + counter % 26` */
  function NextReqId(counter: nat): (r: (nat, char))
    ensures r.0 == counter + 1
    ensures 'a' <= r.1 <= 'z'
    ensures r.1 as int - 'a' as int == r.0 % 26
  {
    var c := counter + 1;
    (c, (97 + c % 26) as char)
  }

  /** The ids of `n` consecutive requests starting from `counter` */
  function ReqIds(counter: nat, n: nat): (ids: seq<char>)
    ensures |ids| == n
    decreases n
  {
    if n == 0 then [] else [NextReqId(counter).1] + ReqIds(counter + 1, n - 1)
  }

  /** The first id of a fresh scraper is `b`, not `a` */
  lemma FirstIdIsB()
    ensures NextReqId(0) == (1, 'b')
  {
  }

  lemma {:induction false} ReqIdsAt(counter: nat, n: nat, j: nat)
    requires j < n
    ensures ReqIds(counter, n)[j] as int == 97 + (counter + j + 1) % 26
    decreases n
  {
    if j > 0 {
      ReqIdsAt(counter + 1, n - 1, j - 1);
    }
  }

  lemma ModShift(a: int, q: int)
    ensures (a + 26 * q) % 26 == a % 26
  {
  }

  lemma ModStep(a: int, d: int)
    requires 0 < d < 26
    ensures (a + d) % 26 != a % 26
  {
    var q, r := a / 26, a % 26;
    assert a == 26 * q + r;
    if r + d < 26 {
      ModShift(r + d, q);
    } else {
      ModShift(r + d - 26, q + 1);
    }
  }

  lemma ModInverse(c: nat, x: int)
    requires 0 <= x < 26
    ensures (c + (x - c - 1) % 26 + 1) % 26 == x
  {
    var y := x - c - 1;
    var q := y / 26;
    assert y == 26 * q + y % 26;
    assert c + y % 26 + 1 == x + 26 * (-q);
    ModShift(x, -q);
  }

  /** Any 26 consecutive requests use every letter */
  lemma {:induction false} ReqIdsCover(counter: nat)
    ensures forall ch :: 'a' <= ch <= 'z' ==> ch in ReqIds(counter, 26)
  {
    var ids := ReqIds(counter, 26);
    forall ch | 'a' <= ch <= 'z' ensures ch in ids {
      var j := LetterPosition(counter, ch as int - 97);
      assert ids[j] == ch;
    }
  }

  /** The position among the next 26 requests that uses letter number `x` */
  lemma LetterPosition(counter: nat, x: int) returns (j: nat)
    requires 0 <= x < 26
    ensures j < 26 && ReqIds(counter, 26)[j] as int == 97 + x
  {
    j := (x - counter - 1) % 26;
    ReqIdsAt(counter, 26, j);
    ModInverse(counter, x);
  }

  /** ... and no letter twice */
  lemma {:induction false} ReqIdsDistinct(counter: nat)
    ensures forall i, j :: 0 <= i < j < 26 ==> ReqIds(counter, 26)[i] != ReqIds(counter, 26)[j]
  {
    var ids := ReqIds(counter, 26);
    forall i, j | 0 <= i < j < 26 ensures ids[i] != ids[j] {
      ReqIdsAt(counter, 26, i);
      ReqIdsAt(counter, 26, j);
      ModStep(counter + i + 1, j - i);
    }
  }

  // ---------------------------------------------------------------------
  // jazoest
  // ---------------------------------------------------------------------

  /** The sum of the character codes of a token */
  function CodeSum(s: string): nat {
    if s == [] then 0 else s[0] as nat + CodeSum(s[1..])
  }

  /** The value of `jazoest` when no `fb_dtsg` token was captured */
  const JazoestFallback: string := "25730"

  /** `_generate_jazoest`: `2` followed by the code sum of `fb_dtsg`, or the
      fixed fallback when the attribute was never set */
  function Jazoest(fbDtsg: Option<string>): (r: string)
    ensures |r| >= 2 && r[0] == '2' && AllDigits(r)
    ensures fbDtsg.None? ==> r == "25730"
    ensures fbDtsg.Some? ==> DecimalValue(r[1..]) == CodeSum(fbDtsg.value)
  {
    match fbDtsg
    case None => JazoestFallback
    case Some(token) => "2" + Decimal(CodeSum(token))
  }

  /** The digits after the leading `2` spell the code sum of the token */
  lemma JazoestEncodesSum(token: string)
    ensures DecimalValue(Jazoest(Some(token))[1..]) == CodeSum(token)
  {
    assert Jazoest(Some(token))[1..] == Decimal(CodeSum(token));
  }

  // ---------------------------------------------------------------------
  // Random strings
  // ---------------------------------------------------------------------

  /** The alphabet `random.choices` draws `__csr` characters from */
  const CsrAlphabet: string := "0123456789abcdefghijklmnopqrstuvwxyz"

  /** `_generate_csr`: 32 characters of the alphabet; `picks` are the 32
      positions `random.choices` drew */
  function Csr(picks: seq<nat>): (r: string)
    requires |picks| == 32
    requires forall i :: 0 <= i < |picks| ==> picks[i] < |CsrAlphabet|
    ensures |r| == 32
    ensures forall i :: 0 <= i < |r| ==> IsDigit(r[i]) || 'a' <= r[i] <= 'z'
  {
    seq(32, i requires 0 <= i < 32 => CsrAlphabet[picks[i]])
  }

  /** The alphabet has no repeated character, so the string determines the draws */
  lemma CsrDeterminesPicks(picks: seq<nat>, other: seq<nat>)
    requires |picks| == 32 && |other| == 32
    requires forall i :: 0 <= i < 32 ==> picks[i] < |CsrAlphabet| && other[i] < |CsrAlphabet|
    requires Csr(picks) == Csr(other)
    ensures picks == other
  {
    forall i | 0 <= i < 32 ensures picks[i] == other[i] {
      assert Csr(picks)[i] == Csr(other)[i];
      AlphabetDistinct(picks[i], other[i]);
    }
  }

  lemma AlphabetDistinct(i: nat, j: nat)
    requires i < |CsrAlphabet| && j < |CsrAlphabet|
    requires CsrAlphabet[i] == CsrAlphabet[j]
    ensures i == j
  {
    AlphabetAt(i);
    AlphabetAt(j);
  }

  /** Digits first, then the lower-case letters, in code order */
  lemma AlphabetAt(k: nat)
    requires k < |CsrAlphabet|
    ensures CsrAlphabet[k] as int == if k < 10 then 48 + k else 87 + k
  {
  }

  /** The inclusive upper bound of `random.randint(0, 16**8)` */
  const RandBound: nat := 0x1_0000_0000

  /** `_generate_session_string`: the hex of the whole seconds, a colon, and
      the hex of a random draw from `[0, 16^8]`, both ends included */
  function SessionString(seconds: nat, draw: nat): (r: string)
    requires draw <= RandBound
    ensures ParseSessionString(r) == Some((seconds, draw))
  {
    var a, b := Hex(seconds), Hex(draw);
    assert ':' !in a by { assert forall i :: 0 <= i < |a| ==> IsHexDigit(a[i]); }
    SplitAtJoin(a, ':', b);
    a + ":" + b
  }

  /** Reads the two numbers back out of a session string */
  function ParseSessionString(s: string): Option<(nat, nat)> {
    match SplitAt(s, ':')
    case None => None
    case Some(parts) =>
      if parts.0 != [] && parts.1 != [] && AllHex(parts.0) && AllHex(parts.1)
      then Some((HexValue(parts.0), HexValue(parts.1)))
      else None
  }

  /** The random part has at most eight hex digits, except for the one draw
      `16^8` that the inclusive upper bound lets through, which has nine */
  lemma SessionDrawWidth(draw: nat)
    requires draw <= RandBound
    ensures |Hex(draw)| <= 9
    ensures |Hex(draw)| == 9 <==> draw == RandBound
  {
    assert Pow(16, 8) == RandBound;
    assert Pow(16, 9) > RandBound;
    HexLength(draw, 8);
    HexLength(draw, 9);
  }

  // ---------------------------------------------------------------------
  // Base request parameters
  // ---------------------------------------------------------------------

  /** The tokens captured from the landing page (absent when not found) and
      the request counter */
  datatype Session = Session(
    fbDtsg: Option<string>,
    lsd: Option<string>,
    clientRevision: Option<string>,
    hasteSession: Option<string>,
    spinR: Option<string>,
    spinB: Option<string>,
    counter: nat)

  /** The clock readings and random draws one request consumes */
  datatype Entropy = Entropy(
    sessionSeconds: nat,
    sessionDraw: nat,
    millis: nat,
    csrPicks: seq<nat>,
    spinSeconds: nat)

  predicate ValidEntropy(e: Entropy) {
    && e.sessionDraw <= RandBound
    && |e.csrPicks| == 32
    && forall i :: 0 <= i < |e.csrPicks| ==> e.csrPicks[i] < |CsrAlphabet|
  }

  /** `getattr(self, name, '')` */
  function Attr(o: Option<string>): (r: string)
    ensures r == "" <==> o.None? || o == Some("")
    ensures o.Some? ==> r == o.value
  {
    o.GetOr("")
  }

  /** `v` is how a captured token is sent: the token itself, or the empty
      string when it was never captured */
  predicate SentAs(o: Option<string>, v: string) {
    if o.Some? then v == o.value else v == ""
  }

  /** The `c_user` cookie, a fixed placeholder */
  const CUser: string := "0"

  /** The fixed `__dyn` bitmap the scraper sends */
  const Dyn: string := "7xeUmxa13yoS1syUbFp432m2q1Dxu13wqovzEdF8ixy360CEbo9E3-xS6Ehw2nVEK12wvk0ie2O1VwBwXwEwgo9oO0n24oaEd86a3a1YwBgao6C0Mo6i588Egz898mwkE-U6-3e4UaEW0KrK2S1qxaawse5o4q0HUkw5CwSyES0gq0K-1Lwqp8aE2cwAwQwr86C0nC1TwmUaE2Tw"

  /** The form fields that are the same on every call: `av`, `__user`,
      `__a`, `dpr`, `__ccg`, `__dyn` and `__comet_req` */
  datatype Fixed = Fixed(av: string, user: string, a: string, dpr: string, ccg: string, dyn: string, cometReq: string)

  const FixedFields: Fixed := Fixed(CUser, CUser, "1", "2", "EXCELLENT", Dyn, "1")

  /** The form fields that carry the landing-page tokens: `__hs`, `__rev`,
      `fb_dtsg`, `jazoest`, `lsd`, `__spin_r` and `__spin_b` */
  datatype Tokens = Tokens(hs: string, rev: string, fbDtsg: string, jazoest: string, lsd: string, spinR: string, spinB: string)

  /** The parameters one request draws from the clock and the random source:
      `__s`, `__hsi`, `__csr` and `__spin_t` */
  datatype Stamps = Stamps(s: string, hsi: string, csr: string, spinT: string)

  /** The form fields that change from call to call or with the session:
      `__req`, the token fields and the stamps; every call sends
      `FixedFields` alongside them */
  datatype Params = Params(req: string, tokens: Tokens, stamps: Stamps)

  /** The token fields of a session: each captured token as captured, an
      uncaptured one as the empty string, and `jazoest` derived from
      `fb_dtsg` */
  function TokensOf(s: Session): (r: Tokens)
    ensures r.fbDtsg == "" <==> s.fbDtsg.None? || s.fbDtsg == Some("")
    ensures r.lsd == "" <==> s.lsd.None? || s.lsd == Some("")
    ensures SentAs(s.fbDtsg, r.fbDtsg) && SentAs(s.lsd, r.lsd)
    ensures SentAs(s.hasteSession, r.hs) && SentAs(s.clientRevision, r.rev)
    ensures SentAs(s.spinR, r.spinR) && SentAs(s.spinB, r.spinB)
    ensures |r.jazoest| >= 2 && r.jazoest[0] == '2' && AllDigits(r.jazoest)
    ensures s.fbDtsg.None? ==> r.jazoest == JazoestFallback
    ensures s.fbDtsg.Some? ==> DecimalValue(r.jazoest[1..]) == CodeSum(s.fbDtsg.value)
  {
    Tokens(
      hs := Attr(s.hasteSession),
      rev := Attr(s.clientRevision),
      fbDtsg := Attr(s.fbDtsg),
      jazoest := Jazoest(s.fbDtsg),
      lsd := Attr(s.lsd),
      spinR := Attr(s.spinR),
      spinB := Attr(s.spinB))
  }

  function StampsOf(e: Entropy): (r: Stamps)
    requires ValidEntropy(e)
    ensures ParseSessionString(r.s) == Some((e.sessionSeconds, e.sessionDraw))
    ensures AllDigits(r.hsi) && DecimalValue(r.hsi) == e.millis
    ensures AllDigits(r.spinT) && DecimalValue(r.spinT) == e.spinSeconds
    ensures |r.csr| == 32
  {
    Stamps(SessionString(e.sessionSeconds, e.sessionDraw), Decimal(e.millis), Csr(e.csrPicks), Decimal(e.spinSeconds))
  }

  /** `_get_request_params`. The only state it changes is the request
      counter; the token fields depend on the session alone and the stamps
      on the request's clock readings and draws alone. */
  function RequestParams(s: Session, e: Entropy): (r: (Session, Params))
    requires ValidEntropy(e)
    ensures r.0 == s.(counter := s.counter + 1)
    ensures |r.1.req| == 1 && 'a' <= r.1.req[0] <= 'z'
    ensures r.1.req[0] as int - 'a' as int == r.0.counter % 26
    ensures r.1.tokens == TokensOf(s)
    ensures SentAs(s.fbDtsg, r.1.tokens.fbDtsg) && SentAs(s.lsd, r.1.tokens.lsd)
    ensures s.fbDtsg.None? ==> r.1.tokens.jazoest == JazoestFallback
    ensures ParseSessionString(r.1.stamps.s) == Some((e.sessionSeconds, e.sessionDraw))
    ensures AllDigits(r.1.stamps.hsi) && DecimalValue(r.1.stamps.hsi) == e.millis
    ensures AllDigits(r.1.stamps.spinT) && DecimalValue(r.1.stamps.spinT) == e.spinSeconds
    ensures |r.1.stamps.csr| == 32
  {
    var (c, req) := NextReqId(s.counter);
    (s.(counter := c), Params([req], TokensOf(s), StampsOf(e)))
  }

  /** The tokens are never touched by a request: after any number of
      requests only the counter has moved, by exactly that number */
  function RequestMany(s: Session, es: seq<Entropy>): (r: Session)
    requires forall i :: 0 <= i < |es| ==> ValidEntropy(es[i])
    ensures r == s.(counter := s.counter + |es|)
    decreases |es|
  {
    if es == [] then s else RequestMany(RequestParams(s, es[0]).0, es[1..])
  }
}
