/** The q = 7933 blind-signature messages: requests as assembled from chunks, and responses carrying a signature. */
module WireQ7933 {
  import opened Outcomes
  import opened Bytes
  import opened IntPoly
  import opened Chunks
  import Sign

  const RING_DEGREE := 512
  const MAX_FRAME_PAYLOAD: U32 := 131072
  const MAX_REASON_LENGTH: U16 := 128

  type Word = U16
  type Poly = s: seq<Word> | |s| == RING_DEGREE witness Zeros(RING_DEGREE)
  type Block64 = s: seq<Byte> | |s| == 64 witness BigEndian(0, 64)
  type Block3309 = s: seq<Byte> | |s| == 3309 witness BigEndian(0, 3309)

  function Zeros(n: nat): (s: seq<Word>)
    ensures |s| == n
  {
    if n == 0 then [] else [0] + Zeros(n - 1)
  }

  /** A request, with the fields that only a credential request may carry. */
  datatype Request = Request(
    c: Poly, b: Poly, encA: Poly, encPk: Poly, ct1R: Poly, ct2R: Poly, ct1Mu: Poly, ct2Mu: Poly,
    credential: bool, room: Block32, epoch: U32,
    completion: seq<Byte>, signature: Block64, signatureMlDsa65: Block3309,
    receipt: seq<Byte>)

  const ZERO_ROOM: Block32 := BigEndian(0, 32)
  const ZERO_SIGNATURE: Block64 := BigEndian(0, 64)
  const ZERO_SIGNATURE_MLDSA65: Block3309 := BigEndian(0, 3309)

  /** What the encoder insists on. */
  predicate Encodable(r: Request)
  {
    && |r.receipt| <= MAX_REQUEST_BYTES
    && (if r.credential then 0 < |r.completion| <= MAX_FRAME_PAYLOAD
        else && r.room == ZERO_ROOM && r.epoch == 0 && r.completion == []
             && r.signature == ZERO_SIGNATURE && r.signatureMlDsa65 == ZERO_SIGNATURE_MLDSA65)
  }

  const COMMON: seq<Field> := [
    Words(RING_DEGREE), Words(RING_DEGREE), Words(RING_DEGREE), Words(RING_DEGREE), Words(RING_DEGREE),
    Words(RING_DEGREE), Words(RING_DEGREE), Words(RING_DEGREE), Number(1), Block(32), Number(4)]
  const CREDENTIAL: seq<Field> := [Blob(MAX_FRAME_PAYLOAD), Block(64), Block(3309), Blob(MAX_REQUEST_BYTES)]
  const RAW: seq<Field> := [Blob(MAX_REQUEST_BYTES)]

  function CommonValues(r: Request): (vs: seq<Value>)
    ensures FitsAll(COMMON, vs)
  {
    Widths();
    [W(r.c), W(r.b), W(r.encA), W(r.encPk), W(r.ct1R), W(r.ct2R), W(r.ct1Mu), W(r.ct2Mu),
     N(if r.credential then 1 else 0), B(r.room), N(r.epoch)]
  }

  function CredentialValues(r: Request): (vs: seq<Value>)
    requires |r.completion| <= MAX_FRAME_PAYLOAD && |r.receipt| <= MAX_REQUEST_BYTES
    ensures FitsAll(CREDENTIAL, vs)
  {
    [B(r.completion), B(r.signature), B(r.signatureMlDsa65), B(r.receipt)]
  }

  function RawValues(r: Request): (vs: seq<Value>)
    requires |r.receipt| <= MAX_REQUEST_BYTES
    ensures FitsAll(RAW, vs)
  {
    [B(r.receipt)]
  }

  function EncodeRequest(r: Request): (s: Result<seq<Byte>>)
  {
    if !Encodable(r) then Refused
    else if r.credential then Ok(EncodeAll(COMMON, CommonValues(r)) + EncodeAll(CREDENTIAL, CredentialValues(r)))
    else Ok(EncodeAll(COMMON, CommonValues(r)) + EncodeAll(RAW, RawValues(r)))
  }

  predicate IsPolyValue(v: Value)
  {
    v.W? && |v.ws| == RING_DEGREE && forall i :: 0 <= i < RING_DEGREE ==> v.ws[i] < 0x1_0000
  }

  lemma {:induction false} CommonShape(vs: seq<Value>)
    requires FitsAll(COMMON, vs)
    ensures |vs| == 11 && forall i :: 0 <= i < 8 ==> IsPolyValue(vs[i])
    ensures vs[8].N? && vs[8].n < 256 && vs[9].B? && |vs[9].b| == 32 && vs[10].N? && vs[10].n < 0x1_0000_0000
  {
    Widths();
    forall i | 0 <= i < 8 ensures IsPolyValue(vs[i]) {
      assert Fits(COMMON[i], vs[i]);
    }
    assert Fits(COMMON[8], vs[8]) && Fits(COMMON[9], vs[9]) && Fits(COMMON[10], vs[10]);
  }

  function AsPoly(v: Value): (p: Poly)
    requires IsPolyValue(v)
    ensures W(p) == v
  {
    v.ws
  }

  function RawRequest(vs: seq<Value>, receipt: seq<Byte>): (r: Request)
    requires FitsAll(COMMON, vs)
  {
    CommonShape(vs);
    Request(AsPoly(vs[0]), AsPoly(vs[1]), AsPoly(vs[2]), AsPoly(vs[3]), AsPoly(vs[4]), AsPoly(vs[5]), AsPoly(vs[6]),
            AsPoly(vs[7]), vs[8].n == 1, vs[9].b, vs[10].n, [], ZERO_SIGNATURE, ZERO_SIGNATURE_MLDSA65, receipt)
  }

  lemma {:induction false} CommonRoundTrip(vs: seq<Value>, receipt: seq<Byte>)
    requires FitsAll(COMMON, vs) && vs[8].N? && vs[8].n <= 1
    ensures CommonValues(RawRequest(vs, receipt)) == vs
  {
    CommonShape(vs);
  }

  lemma {:induction false} CommonOnly(r: Request, r': Request)
    requires r' == r.(completion := r'.completion, signature := r'.signature, signatureMlDsa65 := r'.signatureMlDsa65, receipt := r'.receipt)
    ensures CommonValues(r') == CommonValues(r)
  {
  }

  /** decode_q7933_blindsig_assembled_request; nothing when it throws. */
  function DecodeRequest(s: seq<Byte>): (r: Option<Request>)
  {
    match DecodeAll(COMMON, s)
    case None => None
    case Some((vs, rest)) =>
      EncodeDecodedAll(COMMON, s);
      CommonShape(vs);
      if vs[8].n > 1 then None
      else if vs[8].n == 1 then DecodeCredential(vs, rest)
      else DecodeRaw(vs, rest)
  }

  function DecodeCredential(vs: seq<Value>, rest: seq<Byte>): (r: Option<Request>)
    requires FitsAll(COMMON, vs)
  {
    match DecodeAll(CREDENTIAL, rest)
    case None => None
    case Some((ws, end)) =>
      EncodeDecodedAll(CREDENTIAL, rest);
      assert Fits(CREDENTIAL[0], ws[0]) && Fits(CREDENTIAL[1], ws[1]) && Fits(CREDENTIAL[2], ws[2]) && Fits(CREDENTIAL[3], ws[3]);
      if ws[0].b == [] || end != [] then None
      else Some(RawRequest(vs, ws[3].b).(completion := ws[0].b, signature := ws[1].b, signatureMlDsa65 := ws[2].b))
  }

  function DecodeRaw(vs: seq<Value>, rest: seq<Byte>): (r: Option<Request>)
    requires FitsAll(COMMON, vs)
  {
    match DecodeAll(RAW, rest)
    case None => None
    case Some((ws, end)) =>
      EncodeDecodedAll(RAW, rest);
      assert Fits(RAW[0], ws[0]);
      var r := RawRequest(vs, ws[0].b);
      if end != [] || r.room != ZERO_ROOM || r.epoch != 0 then None else Some(r)
  }

  lemma {:induction false} DecodeOfCredential(r: Request)
    requires Encodable(r) && r.credential
    ensures DecodeCredential(CommonValues(r), EncodeAll(CREDENTIAL, CredentialValues(r))) == Some(r)
  {
    var rest := EncodeAll(CREDENTIAL, CredentialValues(r));
    assert rest + [] == rest;
    DecodeEncodedAll(CREDENTIAL, CredentialValues(r), []);
  }

  lemma {:induction false} DecodeOfRaw(r: Request)
    requires Encodable(r) && !r.credential
    ensures DecodeRaw(CommonValues(r), EncodeAll(RAW, RawValues(r))) == Some(r)
  {
    var rest := EncodeAll(RAW, RawValues(r));
    assert rest + [] == rest;
    DecodeEncodedAll(RAW, RawValues(r), []);
  }

  lemma {:induction false} DecodeEncodedRequest(r: Request)
    requires Encodable(r)
    ensures DecodeRequest(EncodeRequest(r).value) == Some(r)
  {
    hide DecodeAll, EncodeAll, DecodeCredential, DecodeRaw;
    if r.credential {
      DecodeEncodedAll(COMMON, CommonValues(r), EncodeAll(CREDENTIAL, CredentialValues(r)));
      DecodeOfCredential(r);
    } else {
      DecodeEncodedAll(COMMON, CommonValues(r), EncodeAll(RAW, RawValues(r)));
      DecodeOfRaw(r);
    }
  }

  lemma {:induction false} EncodeOfCredential(vs: seq<Value>, rest: seq<Byte>)
    requires FitsAll(COMMON, vs) && vs[8].N? && vs[8].n == 1 && DecodeCredential(vs, rest).Some?
    ensures
      var r := DecodeCredential(vs, rest).value;
      Encodable(r) && r.credential && CommonValues(r) == vs && EncodeAll(CREDENTIAL, CredentialValues(r)) == rest
  {
    hide EncodeAll;
    var r := DecodeCredential(vs, rest).value;
    var (ws, end) := DecodeAll(CREDENTIAL, rest).value;
    EncodeDecodedAll(CREDENTIAL, rest);
    assert Fits(CREDENTIAL[0], ws[0]) && Fits(CREDENTIAL[1], ws[1]) && Fits(CREDENTIAL[2], ws[2]) && Fits(CREDENTIAL[3], ws[3]);
    CommonRoundTrip(vs, ws[3].b);
    CommonOnly(RawRequest(vs, ws[3].b), r);
    assert CredentialValues(r) == ws;
    assert EncodeAll(CREDENTIAL, ws) + [] == EncodeAll(CREDENTIAL, ws);
  }

  lemma {:induction false} EncodeOfRaw(vs: seq<Value>, rest: seq<Byte>)
    requires FitsAll(COMMON, vs) && vs[8].N? && vs[8].n == 0 && DecodeRaw(vs, rest).Some?
    ensures
      var r := DecodeRaw(vs, rest).value;
      Encodable(r) && !r.credential && CommonValues(r) == vs && EncodeAll(RAW, RawValues(r)) == rest
  {
    hide EncodeAll;
    var r := DecodeRaw(vs, rest).value;
    var (ws, end) := DecodeAll(RAW, rest).value;
    EncodeDecodedAll(RAW, rest);
    assert Fits(RAW[0], ws[0]);
    CommonRoundTrip(vs, ws[0].b);
    assert RawValues(r) == ws;
    assert EncodeAll(RAW, ws) + [] == EncodeAll(RAW, ws);
  }

  lemma {:induction false} EncodeDecodedRequest(s: seq<Byte>)
    requires DecodeRequest(s).Some?
    ensures EncodeRequest(DecodeRequest(s).value) == Ok(s)
  {
    hide DecodeAll, EncodeAll, DecodeCredential, DecodeRaw;
    var (vs, rest) := DecodeAll(COMMON, s).value;
    EncodeDecodedAll(COMMON, s);
    CommonShape(vs);
    if vs[8].n == 1 {
      EncodeOfCredential(vs, rest);
    } else {
      EncodeOfRaw(vs, rest);
    }
  }

  /** Encoding and decoding requests are mutual inverses: one encoding for each request, one request for each encoding. */
  lemma {:induction false} RequestRoundTrip(r: Request, s: seq<Byte>)
    ensures EncodeRequest(r) == Ok(s) <==> DecodeRequest(s) == Some(r)
  {
    hide DecodeRequest, EncodeAll;
    if EncodeRequest(r) == Ok(s) {
      DecodeEncodedRequest(r);
    }
    if DecodeRequest(s) == Some(r) {
      EncodeDecodedRequest(s);
    }
  }

  // ----- responses -----

  type Int16 = n: int | -0x8000 <= n < 0x8000
  type SignedPoly = s: seq<Int16> | |s| == RING_DEGREE witness SignedZeros(RING_DEGREE)

  function SignedZeros(n: nat): (s: seq<Int16>)
    ensures |s| == n
  {
    if n == 0 then [] else [0] + SignedZeros(n - 1)
  }

  /** A signed word travels as its two's complement. */
  function ToWire(n: Int16): (w: Word)
  {
    if n < 0 then n + 0x1_0000 else n
  }

  function FromWire(w: Word): (n: Int16)
  {
    if w >= 0x8000 then w - 0x1_0000 else w
  }

  function AllToWire(s: seq<Int16>): (r: seq<Word>)
  {
    seq(|s|, i requires 0 <= i < |s| => ToWire(s[i]))
  }

  function AllFromWire(r: seq<Word>): (s: seq<Int16>)
  {
    seq(|r|, i requires 0 <= i < |r| => FromWire(r[i]))
  }

  datatype Response = Response(status: U8, s0: SignedPoly, s1: SignedPoly, ticket: Block32, reason: seq<Byte>)

  const STATUS_PENDING: U8 := 4
  const RESPONSE: seq<Field> := [Number(1), Words(RING_DEGREE), Words(RING_DEGREE), Block(32), Text(MAX_REASON_LENGTH)]

  function ResponseValues(m: Response): (vs: seq<Value>)
    requires |m.reason| <= MAX_REASON_LENGTH
    ensures FitsAll(RESPONSE, vs)
  {
    Widths();
    [N(m.status), W(AllToWire(m.s0)), W(AllToWire(m.s1)), B(m.ticket), B(m.reason)]
  }

  function EncodeResponse(m: Response): (r: Result<seq<Byte>>)
  {
    if |m.reason| > MAX_REASON_LENGTH then Refused else Ok(EncodeAll(RESPONSE, ResponseValues(m)))
  }

  function ResponseOf(vs: seq<Value>): (m: Response)
    requires FitsAll(RESPONSE, vs)
    ensures |m.reason| <= MAX_REASON_LENGTH
  {
    Widths();
    assert Fits(RESPONSE[0], vs[0]) && Fits(RESPONSE[1], vs[1]) && Fits(RESPONSE[2], vs[2]) && Fits(RESPONSE[3], vs[3]) && Fits(RESPONSE[4], vs[4]);
    var s0: seq<Word> := vs[1].ws;
    var s1: seq<Word> := vs[2].ws;
    Response(vs[0].n, AllFromWire(s0), AllFromWire(s1), vs[3].b, vs[4].b)
  }

  lemma {:induction false} ValuesOfResponse(vs: seq<Value>)
    requires FitsAll(RESPONSE, vs)
    ensures ResponseValues(ResponseOf(vs)) == vs
  {
    assert Fits(RESPONSE[0], vs[0]) && Fits(RESPONSE[1], vs[1]) && Fits(RESPONSE[2], vs[2]) && Fits(RESPONSE[3], vs[3]) && Fits(RESPONSE[4], vs[4]);
    assert AllToWire(AllFromWire(vs[1].ws)) == vs[1].ws;
    assert AllToWire(AllFromWire(vs[2].ws)) == vs[2].ws;
  }

  lemma {:induction false} ResponseOfValues(m: Response)
    requires |m.reason| <= MAX_REASON_LENGTH
    ensures ResponseOf(ResponseValues(m)) == m
  {
    assert AllFromWire(AllToWire(m.s0)) == m.s0;
    assert AllFromWire(AllToWire(m.s1)) == m.s1;
  }

  function DecodeResponse(s: seq<Byte>): (r: Option<Response>)
  {
    match DecodeAll(RESPONSE, s)
    case None => None
    case Some((vs, rest)) =>
      EncodeDecodedAll(RESPONSE, s);
      var m := ResponseOf(vs);
      if rest != [] || m.status > STATUS_PENDING then None else Some(m)
  }

  /** Responses with a known status round-trip in both directions. */
  lemma {:induction false} ResponseRoundTrip(m: Response, s: seq<Byte>)
    requires m.status <= STATUS_PENDING
    ensures EncodeResponse(m) == Ok(s) <==> DecodeResponse(s) == Some(m)
  {
    hide EncodeAll, DecodeAll, ResponseValues, ResponseOf;
    if EncodeResponse(m) == Ok(s) {
      assert s == EncodeAll(RESPONSE, ResponseValues(m)) + [];
      DecodeEncodedAll(RESPONSE, ResponseValues(m), []);
      ResponseOfValues(m);
    }
    if DecodeResponse(s) == Some(m) {
      EncodeDecodedAll(RESPONSE, s);
      var (vs, rest) := DecodeAll(RESPONSE, s).value;
      ValuesOfResponse(vs);
      assert EncodeAll(RESPONSE, vs) + [] == EncodeAll(RESPONSE, vs);
    }
  }

  // ----- signatures fit -----

  const NORM_BOUND_SQUARED := 110231552

  lemma {:induction false} SquareRootBound(x: int)
    requires x * x <= NORM_BOUND_SQUARED
    ensures -10499 <= x <= 10499
  {
  }

  /** Every coefficient of a signature within the production norm bound fits the signed 16-bit wire field, with room. */
  lemma {:induction false} SignatureFitsWire(s: Sign.Signature, i: nat)
    requires Sign.NormSquared(s) <= NORM_BOUND_SQUARED
    ensures i < |s.s0| ==> -10499 <= s.s0[i] <= 10499
    ensures i < |s.s1| ==> -10499 <= s.s1[i] <= 10499
  {
    CoefficientWithinNorm(s.s0, i);
    CoefficientWithinNorm(s.s1, i);
    if i < |s.s0| {
      SquareRootBound(s.s0[i]);
    }
    if i < |s.s1| {
      SquareRootBound(s.s1[i]);
    }
  }

  /** poly_to_array for signed words: refused on a wrong degree or a coefficient out of range. */
  function ToSigned(a: ZPoly): (r: Option<SignedPoly>)
  {
    if |a| == RING_DEGREE && forall i :: 0 <= i < |a| ==> -0x8000 <= a[i] < 0x8000 then Some(a) else None
  }

  /** A signature the signer accepted reaches the client unchanged: it converts to wire words, and decoding the encoded
      response gives back its coefficients. */
  lemma {:induction false} SignatureTravels(s: Sign.Signature, ticket: Block32)
    requires |s.s0| == RING_DEGREE && |s.s1| == RING_DEGREE && Sign.NormSquared(s) <= NORM_BOUND_SQUARED
    ensures ToSigned(s.s0).Some? && ToSigned(s.s1).Some?
    ensures
      var sent := EncodeResponse(Response(0, ToSigned(s.s0).value, ToSigned(s.s1).value, ticket, []));
      && sent.Ok? && DecodeResponse(sent.value).Some?
      && DecodeResponse(sent.value).value.s0 == s.s0 && DecodeResponse(sent.value).value.s1 == s.s1
  {
    hide EncodeResponse, DecodeResponse;
    forall i | 0 <= i < RING_DEGREE ensures -0x8000 <= s.s0[i] < 0x8000 && -0x8000 <= s.s1[i] < 0x8000 {
      SignatureFitsWire(s, i);
    }
    var m := Response(0, ToSigned(s.s0).value, ToSigned(s.s1).value, ticket, []);
    ShortReasonEncodes(m);
    ResponseRoundTrip(m, EncodeResponse(m).value);
  }

  lemma {:induction false} ShortReasonEncodes(m: Response)
    requires |m.reason| <= MAX_REASON_LENGTH
    ensures EncodeResponse(m).Ok?
  {
  }
}
