/** The journal's on-disk records and head pointer: canonical encoding, framing and parsing. */
module JournalFormat {
  import opened Outcomes
  import opened Bytes

  type TradeId = Block16
  type Digest = Block32

  const MAX_MEDIATOR_ID_LENGTH: U16 := 256
  const MAX_RECORD_BODY_LENGTH := 16384
  const SUITE_ED25519: U16 := 1
  const SUITE_MLDSA65: U16 := 2

  /** One journal entry's content. The enumerations are kept as the raw numbers that the file holds. */
  datatype Fields = Fields(
    version: U16, roomId: Block32, tradeId: TradeId, mediatorId: seq<Byte>, fingerprint: Block32, terms: Digest,
    round: U32, direction: U8, messageType: U16, messageHash: Digest, ackState: U8, localState: U8, timestamp: U64)

  datatype Entry = Entry(index: U64, fields: Fields, previous: Digest, hash: Digest)

  datatype Checkpoint = Checkpoint(suite: U16, index: U64, hash: Digest, signedAt: U64, signature: seq<Byte>)

  datatype Record = EntryRecord(entry: Entry) | PlainCheckpoint(checkpoint: Checkpoint) | SuiteCheckpoint(checkpoint: Checkpoint)

  /** The signature length a suite calls for, zero for an unknown suite. */
  function SignatureLength(suite: U16): (n: nat)
  {
    if suite == SUITE_ED25519 then 64 else if suite == SUITE_MLDSA65 then 3309 else 0
  }

  predicate WellFormed(r: Record)
  {
    match r
    case EntryRecord(e) => |e.fields.mediatorId| <= MAX_MEDIATOR_ID_LENGTH
    case PlainCheckpoint(c) => c.suite == SUITE_ED25519 && |c.signature| == 64
    case SuiteCheckpoint(c) => SignatureLength(c.suite) > 0 && |c.signature| == SignatureLength(c.suite)
  }

  // ----- canonical encodings -----

  const CONTENT: seq<Field> := [
    Number(8), Number(2), Block(32), Block(16), Text(MAX_MEDIATOR_ID_LENGTH), Block(32), Block(32), Number(4), Number(1),
    Number(2), Block(32), Number(1), Number(1), Number(8)]

  function ContentValues(index: U64, f: Fields): (vs: seq<Value>)
    requires |f.mediatorId| <= MAX_MEDIATOR_ID_LENGTH
    ensures FitsAll(CONTENT, vs)
  {
    Widths();
    [N(index), N(f.version), B(f.roomId), B(f.tradeId), B(f.mediatorId), B(f.fingerprint), B(f.terms), N(f.round),
     N(f.direction), N(f.messageType), B(f.messageHash), N(f.ackState), N(f.localState), N(f.timestamp)]
  }

  function ContentOf(vs: seq<Value>): (r: (U64, Fields))
    requires FitsAll(CONTENT, vs)
    ensures |r.1.mediatorId| <= MAX_MEDIATOR_ID_LENGTH
  {
    Widths();
    assert forall i :: 0 <= i < 14 ==> Fits(CONTENT[i], vs[i]);
    assert Fits(CONTENT[0], vs[0]) && Fits(CONTENT[1], vs[1]) && Fits(CONTENT[2], vs[2]) && Fits(CONTENT[3], vs[3]);
    assert Fits(CONTENT[4], vs[4]) && Fits(CONTENT[5], vs[5]) && Fits(CONTENT[6], vs[6]) && Fits(CONTENT[7], vs[7]);
    assert Fits(CONTENT[8], vs[8]) && Fits(CONTENT[9], vs[9]) && Fits(CONTENT[10], vs[10]) && Fits(CONTENT[11], vs[11]);
    assert Fits(CONTENT[12], vs[12]) && Fits(CONTENT[13], vs[13]);
    (vs[0].n,
     Fields(vs[1].n, vs[2].b, vs[3].b, vs[4].b, vs[5].b, vs[6].b, vs[7].n, vs[8].n, vs[9].n, vs[10].b, vs[11].n,
            vs[12].n, vs[13].n))
  }

  lemma {:induction false} ContentRoundTrip(index: U64, f: Fields)
    requires |f.mediatorId| <= MAX_MEDIATOR_ID_LENGTH
    ensures ContentOf(ContentValues(index, f)) == (index, f)
  {
  }

  lemma {:induction false} ValuesRoundTrip(vs: seq<Value>)
    requires FitsAll(CONTENT, vs)
    ensures var (index, f) := ContentOf(vs); ContentValues(index, f) == vs
  {
    var (index, f) := ContentOf(vs);
    var ws := ContentValues(index, f);
    assert |ws| == |vs| == 14;
    forall i | 0 <= i < 14 ensures ws[i] == vs[i] {
      assert Fits(CONTENT[i], vs[i]);
    }
  }

  /** canonical_entry_bytes. */
  function CanonicalEntryBytes(index: U64, f: Fields): (s: seq<Byte>)
    requires |f.mediatorId| <= MAX_MEDIATOR_ID_LENGTH
  {
    EncodeAll(CONTENT, ContentValues(index, f))
  }

  const PLAIN: seq<Field> := [Number(8), Block(32), Number(8), Block(64)]
  const SUITE: seq<Field> := [Number(2), Number(8), Block(32), Number(8)]

  function PlainValues(c: Checkpoint): (vs: seq<Value>)
    requires |c.signature| == 64
    ensures FitsAll(PLAIN, vs)
  {
    Widths();
    [N(c.index), B(c.hash), N(c.signedAt), B(c.signature)]
  }

  function SuiteValues(c: Checkpoint): (vs: seq<Value>)
    ensures FitsAll(SUITE, vs)
  {
    Widths();
    [N(c.suite), N(c.index), B(c.hash), N(c.signedAt)]
  }

  function PlainOf(vs: seq<Value>): (c: Checkpoint)
    requires FitsAll(PLAIN, vs)
    ensures |c.signature| == 64 && c.suite == SUITE_ED25519 && PlainValues(c) == vs
  {
    Widths();
    assert Fits(PLAIN[0], vs[0]) && Fits(PLAIN[1], vs[1]) && Fits(PLAIN[2], vs[2]) && Fits(PLAIN[3], vs[3]);
    Checkpoint(SUITE_ED25519, vs[0].n, vs[1].b, vs[2].n, vs[3].b)
  }

  function SuiteOf(vs: seq<Value>, signature: seq<Byte>): (c: Checkpoint)
    requires FitsAll(SUITE, vs)
    ensures c.signature == signature && SuiteValues(c) == vs
  {
    Widths();
    assert Fits(SUITE[0], vs[0]) && Fits(SUITE[1], vs[1]) && Fits(SUITE[2], vs[2]) && Fits(SUITE[3], vs[3]);
    Checkpoint(vs[0].n, vs[1].n, vs[2].b, vs[3].n, signature)
  }

  // ----- records -----

  function Kind(r: Record): (k: Byte)
  {
    match r case EntryRecord(_) => 1 case PlainCheckpoint(_) => 2 case SuiteCheckpoint(_) => 3
  }

  function Body(r: Record): (s: seq<Byte>)
    requires WellFormed(r)
  {
    match r
    case EntryRecord(e) => CanonicalEntryBytes(e.index, e.fields) + e.previous + e.hash
    case PlainCheckpoint(c) => EncodeAll(PLAIN, PlainValues(c))
    case SuiteCheckpoint(c) => EncodeAll(SUITE, SuiteValues(c)) + c.signature
  }

  function Frame(r: Record): (s: seq<Byte>)
    requires WellFormed(r)
  {
    [Kind(r)] + BigEndian(|Body(r)|, 4) + Body(r)
  }

  function Read(layout: seq<Field>, s: seq<Byte>): (r: Option<(seq<Value>, seq<Byte>)>)
    ensures r.Some? ==> FitsAll(layout, r.value.0) && s == EncodeAll(layout, r.value.0) + r.value.1
  {
    var r := DecodeAll(layout, s);
    if r.Some? then EncodeDecodedAll(layout, s); r else r
  }

  function ParseEntry(body: seq<Byte>): (r: Option<Record>)
  {
    match Read(CONTENT, body)
    case None => None
    case Some((vs, rest)) =>
      if |rest| != 64 then None
      else
        var (index, fields) := ContentOf(vs);
        Some(EntryRecord(Entry(index, fields, rest[..32], rest[32..])))
  }

  function ParsePlain(body: seq<Byte>): (r: Option<Record>)
  {
    match Read(PLAIN, body)
    case None => None
    case Some((vs, rest)) => if rest != [] then None else Some(PlainCheckpoint(PlainOf(vs)))
  }

  function ParseSuite(body: seq<Byte>): (r: Option<Record>)
  {
    match Read(SUITE, body)
    case None => None
    case Some((vs, rest)) =>
      var c := SuiteOf(vs, rest);
      if SignatureLength(c.suite) == 0 || |rest| != SignatureLength(c.suite) then None else Some(SuiteCheckpoint(c))
  }

  /** The record that a body of the given kind holds, or nothing when it is malformed. */
  function ParseBody(kind: Byte, body: seq<Byte>): (r: Option<Record>)
  {
    match kind
    case 1 => ParseEntry(body)
    case 2 => ParsePlain(body)
    case 3 => ParseSuite(body)
    case _ => None
  }

  lemma {:induction false} ParseEncodedEntry(e: Entry)
    requires WellFormed(EntryRecord(e))
    ensures ParseEntry(Body(EntryRecord(e))) == Some(EntryRecord(e))
  {
    hide EncodeAll, DecodeAll, ContentValues, ContentOf;
    var vs := ContentValues(e.index, e.fields);
    assert Body(EntryRecord(e)) == EncodeAll(CONTENT, vs) + (e.previous + e.hash);
    DecodeEncodedAll(CONTENT, vs, e.previous + e.hash);
    ContentRoundTrip(e.index, e.fields);
    assert (e.previous + e.hash)[..32] == e.previous && (e.previous + e.hash)[32..] == e.hash;
  }

  lemma {:induction false} ParseEncodedPlain(c: Checkpoint)
    requires WellFormed(PlainCheckpoint(c))
    ensures ParsePlain(Body(PlainCheckpoint(c))) == Some(PlainCheckpoint(c))
  {
    hide EncodeAll, DecodeAll;
    assert Body(PlainCheckpoint(c)) == EncodeAll(PLAIN, PlainValues(c)) + [];
    DecodeEncodedAll(PLAIN, PlainValues(c), []);
  }

  lemma {:induction false} ParseEncodedSuite(c: Checkpoint)
    requires WellFormed(SuiteCheckpoint(c))
    ensures ParseSuite(Body(SuiteCheckpoint(c))) == Some(SuiteCheckpoint(c))
  {
    hide EncodeAll, DecodeAll;
    DecodeEncodedAll(SUITE, SuiteValues(c), c.signature);
  }

  /** Parsing undoes encoding. */
  lemma {:induction false} ParseEncoded(r: Record)
    requires WellFormed(r)
    ensures ParseBody(Kind(r), Body(r)) == Some(r)
  {
    hide ParseEntry, ParsePlain, ParseSuite, Body;
    match r
    case EntryRecord(e) => ParseEncodedEntry(e);
    case PlainCheckpoint(c) => ParseEncodedPlain(c);
    case SuiteCheckpoint(c) => ParseEncodedSuite(c);
  }

  lemma {:induction false} EncodeParsedEntry(body: seq<Byte>)
    requires ParseEntry(body).Some?
    ensures var r := ParseEntry(body).value; r.EntryRecord? && WellFormed(r) && Body(r) == body
  {
    hide Read, EncodeAll, ContentValues, ContentOf;
    var r := ParseEntry(body).value;
    var (vs, rest) := Read(CONTENT, body).value;
    ValuesRoundTrip(vs);
    assert rest == r.entry.previous + r.entry.hash;
  }

  lemma {:induction false} EncodeParsedPlain(body: seq<Byte>)
    requires ParsePlain(body).Some?
    ensures var r := ParsePlain(body).value; r.PlainCheckpoint? && WellFormed(r) && Body(r) == body
  {
    hide Read, EncodeAll, PlainValues, PlainOf;
    var (vs, rest) := Read(PLAIN, body).value;
    assert body == EncodeAll(PLAIN, vs) + [];
  }

  lemma {:induction false} EncodeParsedSuite(body: seq<Byte>)
    requires ParseSuite(body).Some?
    ensures var r := ParseSuite(body).value; r.SuiteCheckpoint? && WellFormed(r) && Body(r) == body
  {
    hide Read, EncodeAll, SuiteValues, SuiteOf;
  }

  /** Encoding undoes parsing: a body that parses is the one encoding of its record. */
  lemma {:induction false} EncodeParsed(kind: Byte, body: seq<Byte>)
    requires ParseBody(kind, body).Some?
    ensures var r := ParseBody(kind, body).value; WellFormed(r) && Kind(r) == kind && Body(r) == body
  {
    hide ParseEntry, ParsePlain, ParseSuite, Body, WellFormed;
    match kind
    case 1 => EncodeParsedEntry(body);
    case 2 => EncodeParsedPlain(body);
    case 3 => EncodeParsedSuite(body);
  }

  /** Every record the journal writes is within the length its reader accepts. */
  lemma {:induction false} BodyIsBounded(r: Record)
    requires WellFormed(r)
    ensures |Body(r)| <= MAX_RECORD_BODY_LENGTH
  {
    match r
    case EntryRecord(e) => EncodingIsBounded(CONTENT, ContentValues(e.index, e.fields), 258);
    case PlainCheckpoint(c) => EncodingIsBounded(PLAIN, PlainValues(c), 64);
    case SuiteCheckpoint(c) => EncodingIsBounded(SUITE, SuiteValues(c), 32);
  }

  // ----- the head pointer file -----

  const HEAD_MAGIC: seq<Byte> := [0x54, 0x50, 0x4a, 0x48]
  const HEAD_VERSION: U16 := 1
  const HEAD_VERSION_SUITE: U16 := 2

  function EncodeHead(c: Checkpoint): (s: seq<Byte>)
    requires |c.signature| == SignatureLength(c.suite) > 0
  {
    if c.suite == SUITE_ED25519
    then HEAD_MAGIC + BigEndian(HEAD_VERSION, 2) + EncodeAll(PLAIN, PlainValues(c))
    else HEAD_MAGIC + BigEndian(HEAD_VERSION_SUITE, 2) + EncodeAll(SUITE, SuiteValues(c)) + c.signature
  }

  function DecodeHead(s: seq<Byte>): (r: Option<Checkpoint>)
    ensures r.Some? ==> |r.value.signature| == SignatureLength(r.value.suite) > 0
  {
    if |s| < 6 || s[..4] != HEAD_MAGIC then None
    else
      var version := FromBigEndian(s[4..6]);
      if version == HEAD_VERSION then
        var r := ParsePlain(s[6..]);
        if r.Some? then EncodeParsed(2, s[6..]); Some(r.value.checkpoint) else None
      else if version == HEAD_VERSION_SUITE then
        var r := ParseSuite(s[6..]);
        if r.Some? then EncodeParsed(3, s[6..]); Some(r.value.checkpoint) else None
      else None
  }

  lemma {:induction false} HeadRoundTrip(c: Checkpoint)
    requires |c.signature| == SignatureLength(c.suite) > 0
    ensures DecodeHead(EncodeHead(c)) == Some(c)
  {
    hide ParsePlain, ParseSuite, EncodeAll, PlainValues, SuiteValues, BigEndian, FromBigEndian;
    var s := EncodeHead(c);
    Widths();
    if c.suite == SUITE_ED25519 {
      NumberRoundTrip(HEAD_VERSION, 2);
      ParseEncoded(PlainCheckpoint(c));
      assert s[..4] == HEAD_MAGIC && s[4..6] == BigEndian(HEAD_VERSION, 2) && s[6..] == Body(PlainCheckpoint(c));
    } else {
      NumberRoundTrip(HEAD_VERSION_SUITE, 2);
      ParseEncoded(SuiteCheckpoint(c));
      assert s[..4] == HEAD_MAGIC && s[4..6] == BigEndian(HEAD_VERSION_SUITE, 2) && s[6..] == Body(SuiteCheckpoint(c));
    }
  }

  /** The reader accepts one form the writer never produces: version 2 naming the Ed25519 suite. Apart from it, a head
      file that decodes is the one encoding of its checkpoint. */
  lemma {:induction false} HeadIsCanonical(s: seq<Byte>)
    requires DecodeHead(s).Some?
    ensures
      var c := DecodeHead(s).value;
      EncodeHead(c) == s <==> !(FromBigEndian(s[4..6]) == HEAD_VERSION_SUITE && c.suite == SUITE_ED25519)
  {
    hide ParsePlain, ParseSuite, EncodeAll, PlainValues, SuiteValues, BigEndian, FromBigEndian;
    BytesRoundTrip(s[4..6]);
    assert s == s[..4] + s[4..6] + s[6..];
    if FromBigEndian(s[4..6]) == HEAD_VERSION {
      EncodeParsed(2, s[6..]);
    } else {
      EncodeParsed(3, s[6..]);
      if DecodeHead(s).value.suite == SUITE_ED25519 {
        OtherVersion(DecodeHead(s).value, s);
      }
    }
  }

  lemma {:induction false} OtherVersion(c: Checkpoint, s: seq<Byte>)
    requires |c.signature| == 64 && c.suite == SUITE_ED25519 && |s| >= 6 && FromBigEndian(s[4..6]) == HEAD_VERSION_SUITE
    ensures EncodeHead(c) != s
  {
    hide EncodeAll, PlainValues, BigEndian, FromBigEndian;
    assert EncodeHead(c)[4..6] == BigEndian(HEAD_VERSION, 2);
    Widths();
    NumberRoundTrip(HEAD_VERSION, 2);
  }
}
