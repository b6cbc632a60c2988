/**
 The wrapped vault-key record: a binary header, the authenticated fields, and a sealed data key.

 The cipher is a parameter. All that is asked of it is `Lawful`: opening undoes sealing, and opens nothing else.
*/
module RecordCodec {
  import opened Options
  import opened Bytes

  const MAGIC: Bytes := [75, 67, 72, 86, 76, 84, 48, 49]
  const FORMAT_VERSION: Byte := 1
  const STATE_PENDING: Byte := 1
  const STATE_ACTIVE: Byte := 2
  const RECOVERY_CIPHER_AES_256_GCM: Byte := 1
  const HARDWARE_CIPHER_ECIES_X963_SHA256_AES_GCM: Byte := 1
  const POLICY_BIOMETRIC_CURRENT_SET: Byte := 1
  const HEADER_LENGTH := 22
  const NONCE_LENGTH := 12
  const TAG_LENGTH := 16
  const DATA_KEY_LENGTH := 32
  const P256_PUBLIC_KEY_LENGTH := 65
  const MAX_HARDWARE_CIPHERTEXT_LENGTH := 4096
  const MAX_RECORD_LENGTH := 8192

  /** What the platform provides: sealing, opening, and the validity of a public key. */
  datatype Platform = Platform(
    seal: (Bytes, Bytes, Bytes, Bytes) -> Option<(Bytes, Bytes)>,
    open: (Bytes, Bytes, Bytes, Bytes, Bytes) -> Option<Bytes>,
    publicKeyValid: Bytes -> bool)

  ghost predicate Lawful(p: Platform) {
    && (forall key, nonce, aad, plain :: var sealed := p.seal(key, nonce, aad, plain);
          sealed.Some? ==> |sealed.value.0| == |plain| && |sealed.value.1| == TAG_LENGTH &&
                           p.open(key, nonce, aad, sealed.value.0, sealed.value.1) == Some(plain))
    && (forall key, nonce, aad, ciphertext, tag :: var plain := p.open(key, nonce, aad, ciphertext, tag);
          plain.Some? ==> p.seal(key, nonce, aad, plain.value) == Some((ciphertext, tag)))
  }

  datatype State = Pending(dataKey: Bytes) | Active(dataKey: Bytes, publicKey: Bytes, hardwareCiphertext: Bytes)

  datatype DecodeError = AuthenticationFailed | Damaged

  datatype Decoded = Ok(state: State) | Err(error: DecodeError)

  /** The raw fields of a record. */
  datatype Fields = Fields(state: Byte, applicationTag: Bytes, publicKey: Bytes, hardwareCiphertext: Bytes,
                           nonce: Bytes)

  /** Every length fits its field of the header. */
  predicate Fits(f: Fields) {
    && |f.applicationTag| < 0x1_0000 && |f.publicKey| < 0x1_0000 && |f.hardwareCiphertext| < 0x1_0000_0000
    && |f.nonce| == NONCE_LENGTH
  }

  function Prefix(state: Byte): (b: Bytes)
    ensures |b| == 14
  {
    MAGIC + [FORMAT_VERSION, state, RECOVERY_CIPHER_AES_256_GCM, HARDWARE_CIPHER_ECIES_X963_SHA256_AES_GCM,
             POLICY_BIOMETRIC_CURRENT_SET, 0]
  }

  function Header(f: Fields): (b: Bytes)
    requires Fits(f)
    ensures |b| == HEADER_LENGTH
  {
    Prefix(f.state) + U16(|f.applicationTag|) + U16(|f.publicKey|) + U32(|f.hardwareCiphertext|)
  }

  /** The authenticated part of a record. */
  function AssociatedData(f: Fields): (b: Bytes)
    requires Fits(f)
    ensures |b| == HEADER_LENGTH + |f.applicationTag| + |f.publicKey| + |f.hardwareCiphertext| + NONCE_LENGTH
  {
    Header(f) + f.applicationTag + f.publicKey + f.hardwareCiphertext + f.nonce
  }

  /** The bytes of a record, if its lengths fit and sealing succeeds. */
  function Encoded(p: Platform, wrappingKey: Bytes, f: Fields, dataKey: Bytes): Option<Bytes> {
    if !Fits(f) then None
    else
      match p.seal(wrappingKey, f.nonce, AssociatedData(f), dataKey)
      case Some((ciphertext, tag)) => Some(AssociatedData(f) + tag + ciphertext)
      case None => None
  }

  /** The encoder appends field after field to a buffer. */
  method EncodeRecordWithNonce(p: Platform, wrappingKey: Bytes, f: Fields, dataKey: Bytes)
    returns (encoded: Option<Bytes>)
    requires |f.nonce| == NONCE_LENGTH
    ensures encoded == Encoded(p, wrappingKey, f, dataKey)
  {
    if |f.applicationTag| >= 0x1_0000 || |f.publicKey| >= 0x1_0000 { return None; }
    if |f.hardwareCiphertext| >= 0x1_0000_0000 { return None; }
    var aad: Bytes := [];
    aad := aad + MAGIC;
    aad := aad + [FORMAT_VERSION, f.state, RECOVERY_CIPHER_AES_256_GCM, HARDWARE_CIPHER_ECIES_X963_SHA256_AES_GCM,
                  POLICY_BIOMETRIC_CURRENT_SET, 0];
    assert aad == Prefix(f.state);
    aad := aad + U16(|f.applicationTag|);
    aad := aad + U16(|f.publicKey|);
    aad := aad + U32(|f.hardwareCiphertext|);
    aad := aad + f.applicationTag;
    aad := aad + f.publicKey;
    aad := aad + f.hardwareCiphertext;
    aad := aad + f.nonce;
    var sealed := p.seal(wrappingKey, f.nonce, aad, dataKey);
    if sealed.None? { return None; }
    return Some(aad + sealed.value.1 + sealed.value.0);
  }

  /** The authenticated fields of a record that starts with a well-formed header, cut out by their lengths. */
  function Cut(bytes: Bytes): (f: Option<Fields>)
    ensures f.Some? ==> Fits(f.value)
  {
    if |bytes| < HEADER_LENGTH + NONCE_LENGTH + TAG_LENGTH + DATA_KEY_LENGTH || |bytes| > MAX_RECORD_LENGTH then None
    else if bytes[..8] != MAGIC || bytes[8] != FORMAT_VERSION || bytes[10] != RECOVERY_CIPHER_AES_256_GCM then None
    else if bytes[11] != HARDWARE_CIPHER_ECIES_X963_SHA256_AES_GCM then None
    else if bytes[12] != POLICY_BIOMETRIC_CURRENT_SET || bytes[13] != 0 then None
    else
      var tagLength := FromU16(bytes[14..16]);
      var publicKeyLength := FromU16(bytes[16..18]);
      var hardwareLength := FromU32(bytes[18..22]);
      if hardwareLength > MAX_HARDWARE_CIPHERTEXT_LENGTH then None
      else
        var aadLength := HEADER_LENGTH + tagLength + publicKeyLength + hardwareLength + NONCE_LENGTH;
        if |bytes| != aadLength + TAG_LENGTH + DATA_KEY_LENGTH then None
        else
          var publicKeyStart := HEADER_LENGTH + tagLength;
          var hardwareStart := publicKeyStart + publicKeyLength;
          var nonceStart := hardwareStart + hardwareLength;
          Some(Fields(bytes[9], bytes[HEADER_LENGTH..publicKeyStart], bytes[publicKeyStart..hardwareStart],
                      bytes[hardwareStart..nonceStart], bytes[nonceStart..aadLength]))
  }

  /** The state a record's fields and opened data key stand for. */
  function StateOf(p: Platform, f: Fields, dataKey: Bytes): Decoded {
    if f.state == STATE_PENDING && f.publicKey == [] && f.hardwareCiphertext == [] then Ok(Pending(dataKey))
    else if f.state == STATE_ACTIVE && |f.publicKey| == P256_PUBLIC_KEY_LENGTH && p.publicKeyValid(f.publicKey) &&
            f.hardwareCiphertext != []
    then Ok(Active(dataKey, f.publicKey, f.hardwareCiphertext))
    else Err(Damaged)
  }

  function DecodeRecord(p: Platform, wrappingKey: Bytes, applicationTag: Bytes, bytes: Bytes): Decoded {
    match Cut(bytes)
    case None => Err(AuthenticationFailed)
    case Some(f) =>
      if f.applicationTag != applicationTag then Err(AuthenticationFailed)
      else
        var aadLength := |bytes| - TAG_LENGTH - DATA_KEY_LENGTH;
        if aadLength < 0 then Err(AuthenticationFailed)
        else
          var sealed, tag := bytes[aadLength + TAG_LENGTH..], bytes[aadLength..aadLength + TAG_LENGTH];
          match p.open(wrappingKey, f.nonce, bytes[..aadLength], sealed, tag)
          case None => Err(AuthenticationFailed)
          case Some(dataKey) => StateOf(p, f, dataKey)
  }

  // ---- cutting undoes appending, and only that --------------------------------------------------------------------

  /** Sizes a reader accepts. */
  predicate Readable(f: Fields) {
    && Fits(f) && |f.hardwareCiphertext| <= MAX_HARDWARE_CIPHERTEXT_LENGTH
    && |AssociatedData(f)| + TAG_LENGTH + DATA_KEY_LENGTH <= MAX_RECORD_LENGTH
  }

  lemma HeaderParts(f: Fields, bytes: Bytes, rest: Bytes)
    requires Fits(f) && bytes == Header(f) + rest
    ensures bytes[..14] == Prefix(f.state)
    ensures bytes[14..16] == U16(|f.applicationTag|) && bytes[16..18] == U16(|f.publicKey|)
    ensures bytes[18..22] == U32(|f.hardwareCiphertext|)
  {
    var header := Header(f);
    assert bytes[..22] == header;
    assert header[..14] == Prefix(f.state) && header[14..16] == U16(|f.applicationTag|);
    assert header[16..18] == U16(|f.publicKey|) && header[18..22] == U32(|f.hardwareCiphertext|);
    assert bytes[..14] == bytes[..22][..14] && bytes[14..16] == bytes[..22][14..16];
    assert bytes[16..18] == bytes[..22][16..18] && bytes[18..22] == bytes[..22][18..22];
  }

  lemma PrefixFields(state: Byte, bytes: Bytes)
    requires |bytes| >= 14 && bytes[..14] == Prefix(state)
    ensures bytes[..8] == MAGIC && bytes[8] == FORMAT_VERSION && bytes[9] == state
    ensures bytes[10] == RECOVERY_CIPHER_AES_256_GCM
    ensures bytes[11] == HARDWARE_CIPHER_ECIES_X963_SHA256_AES_GCM && bytes[12] == POLICY_BIOMETRIC_CURRENT_SET
    ensures bytes[13] == 0
  {
    assert bytes[..8] == bytes[..14][..8];
    assert forall k :: 8 <= k < 14 ==> bytes[k] == bytes[..14][k];
  }

  lemma BodyParts(f: Fields, bytes: Bytes, tail: Bytes)
    requires Fits(f) && bytes == AssociatedData(f) + tail
    ensures var a := HEADER_LENGTH + |f.applicationTag|; var b := a + |f.publicKey|;
            var c := b + |f.hardwareCiphertext|;
            && bytes[HEADER_LENGTH..a] == f.applicationTag && bytes[a..b] == f.publicKey
            && bytes[b..c] == f.hardwareCiphertext && bytes[c..c + NONCE_LENGTH] == f.nonce
  {
  }

  lemma CutOfEncoded(f: Fields, bytes: Bytes, tail: Bytes)
    requires Fits(f) && bytes == AssociatedData(f) + tail && |tail| == TAG_LENGTH + DATA_KEY_LENGTH
    ensures Cut(bytes) == if Readable(f) then Some(f) else None
    ensures Readable(f) <==> |f.hardwareCiphertext| <= 4096 && |bytes| <= 8192
  {
    var rest := f.applicationTag + f.publicKey + f.hardwareCiphertext + f.nonce + tail;
    assert bytes == Header(f) + rest;
    HeaderParts(f, bytes, rest);
    PrefixFields(f.state, bytes);
    BodyParts(f, bytes, tail);
  }

  lemma PrefixOfFields(bytes: Bytes)
    requires |bytes| >= 14 && bytes[..8] == MAGIC && bytes[8] == FORMAT_VERSION
    requires bytes[10] == RECOVERY_CIPHER_AES_256_GCM
    requires bytes[11] == HARDWARE_CIPHER_ECIES_X963_SHA256_AES_GCM && bytes[12] == POLICY_BIOMETRIC_CURRENT_SET
    requires bytes[13] == 0
    ensures bytes[..14] == Prefix(bytes[9])
  {
    assert bytes[..14] == bytes[..8] + [bytes[8], bytes[9], bytes[10], bytes[11], bytes[12], bytes[13]];
  }

  lemma HeaderOfCut(bytes: Bytes)
    requires Cut(bytes).Some?
    ensures bytes[..HEADER_LENGTH] == Header(Cut(bytes).value)
  {
    PrefixOfFields(bytes);
    U16OfFrom(bytes[14..16]);
    U16OfFrom(bytes[16..18]);
    U32OfFrom(bytes[18..22]);
    assert bytes[..22] == bytes[..14] + bytes[14..16] + bytes[16..18] + bytes[18..22];
  }

  /** A slice up to `e` is made of the slices between the bounds. */
  lemma Slices(bytes: Bytes, h: nat, a: nat, b: nat, c: nat, e: nat)
    requires h <= a <= b <= c <= e <= |bytes|
    ensures bytes[..e] == bytes[..h] + bytes[h..a] + bytes[a..b] + bytes[b..c] + bytes[c..e]
  {
  }

  lemma CutIsEncoded(bytes: Bytes)
    requires Cut(bytes).Some?
    ensures var f := Cut(bytes).value;
            Readable(f) && bytes[..|bytes| - TAG_LENGTH - DATA_KEY_LENGTH] == AssociatedData(f)
  {
    HeaderOfCut(bytes);
    var f := Cut(bytes).value;
    var a := HEADER_LENGTH + |f.applicationTag|;
    var b := a + |f.publicKey|;
    var c := b + |f.hardwareCiphertext|;
    Slices(bytes, HEADER_LENGTH, a, b, c, c + NONCE_LENGTH);
  }

  // ---- main results -----------------------------------------------------------------------------------------------

  function FieldsOf(state: State, applicationTag: Bytes, nonce: Bytes): (f: Fields)
    ensures f.state == (if state.Active? then 2 else 1) && f.applicationTag == applicationTag && f.nonce == nonce
  {
    match state
    case Pending(_) => Fields(STATE_PENDING, applicationTag, [], [], nonce)
    case Active(_, publicKey, hardwareCiphertext) =>
      Fields(STATE_ACTIVE, applicationTag, publicKey, hardwareCiphertext, nonce)
  }

  /** A state a record may hold. */
  predicate WellFormed(p: Platform, state: State) {
    && |state.dataKey| == DATA_KEY_LENGTH
    && (state.Active? ==>
          && |state.publicKey| == P256_PUBLIC_KEY_LENGTH && p.publicKeyValid(state.publicKey)
          && state.hardwareCiphertext != [])
  }

  /** Whatever was encoded decodes to itself exactly when it is within the reader's bounds. */
  lemma DecodeInvertsEncodeIff(p: Platform, wrappingKey: Bytes, applicationTag: Bytes, nonce: Bytes, state: State)
    requires Lawful(p) && WellFormed(p, state)
    requires Encoded(p, wrappingKey, FieldsOf(state, applicationTag, nonce), state.dataKey).Some?
    ensures var encoded := Encoded(p, wrappingKey, FieldsOf(state, applicationTag, nonce), state.dataKey).value;
            && (DecodeRecord(p, wrappingKey, applicationTag, encoded) == Ok(state) <==>
                  Readable(FieldsOf(state, applicationTag, nonce)))
            && (!Readable(FieldsOf(state, applicationTag, nonce)) ==>
                  DecodeRecord(p, wrappingKey, applicationTag, encoded) == Err(AuthenticationFailed))
  {
    var f := FieldsOf(state, applicationTag, nonce);
    var aad := AssociatedData(f);
    var sealed := p.seal(wrappingKey, nonce, aad, state.dataKey).value;
    var encoded := aad + sealed.1 + sealed.0;
    assert p.open(wrappingKey, nonce, aad, sealed.0, sealed.1) == Some(state.dataKey);
    assert encoded == aad + (sealed.1 + sealed.0);
    CutOfEncoded(f, encoded, sealed.1 + sealed.0);
    assert encoded[..|aad|] == aad && encoded[|aad|..|aad| + TAG_LENGTH] == sealed.1;
    assert encoded[|aad| + TAG_LENGTH..] == sealed.0;
  }

  /** Whatever decodes is the encoding of what it decodes to. */
  lemma DecodeAcceptsOnlyImages(p: Platform, wrappingKey: Bytes, applicationTag: Bytes, bytes: Bytes)
    requires Lawful(p) && DecodeRecord(p, wrappingKey, applicationTag, bytes).Ok?
    ensures var state := DecodeRecord(p, wrappingKey, applicationTag, bytes).state;
            exists nonce ::
              && |nonce| == NONCE_LENGTH && Readable(FieldsOf(state, applicationTag, nonce))
              && Encoded(p, wrappingKey, FieldsOf(state, applicationTag, nonce), state.dataKey) == Some(bytes)
    ensures var state := DecodeRecord(p, wrappingKey, applicationTag, bytes).state;
            && |state.dataKey| == 32
            && (state.Pending? ==> |bytes| == 82 + |applicationTag|)
            && (state.Active? ==>
                  && |state.publicKey| == 65 && p.publicKeyValid(state.publicKey)
                  && 0 < |state.hardwareCiphertext| <= 4096
                  && |bytes| == 82 + |applicationTag| + 65 + |state.hardwareCiphertext|)
  {
    var f := Cut(bytes).value;
    CutIsEncoded(bytes);
    var n := |bytes| - TAG_LENGTH - DATA_KEY_LENGTH;
    var state := DecodeRecord(p, wrappingKey, applicationTag, bytes).state;
    assert p.seal(wrappingKey, f.nonce, bytes[..n], state.dataKey) ==
             Some((bytes[n + TAG_LENGTH..], bytes[n..n + TAG_LENGTH]));
    assert FieldsOf(state, applicationTag, f.nonce) == f;
    assert bytes == bytes[..n] + bytes[n..n + TAG_LENGTH] + bytes[n + TAG_LENGTH..];
  }

  /** What was encoded under the key opens again. */
  lemma EncodedIsOpened(p: Platform, wrappingKey: Bytes, f: Fields, dataKey: Bytes, bytes: Bytes)
    requires Lawful(p) && Readable(f) && |dataKey| == DATA_KEY_LENGTH
    requires Encoded(p, wrappingKey, f, dataKey) == Some(bytes)
    ensures DecodeRecord(p, wrappingKey, f.applicationTag, bytes) == StateOf(p, f, dataKey)
  {
    var aad := AssociatedData(f);
    var sealed := p.seal(wrappingKey, f.nonce, aad, dataKey).value;
    assert p.open(wrappingKey, f.nonce, aad, sealed.0, sealed.1) == Some(dataKey);
    assert bytes == aad + (sealed.1 + sealed.0);
    CutOfEncoded(f, bytes, sealed.1 + sealed.0);
    assert bytes[..|aad|] == aad && bytes[|aad|..|aad| + TAG_LENGTH] == sealed.1;
    assert bytes[|aad| + TAG_LENGTH..] == sealed.0;
  }

  /** Whatever opens was encoded under the key. */
  lemma OpenedIsEncoded(p: Platform, wrappingKey: Bytes, applicationTag: Bytes, bytes: Bytes)
    requires Lawful(p) && DecodeRecord(p, wrappingKey, applicationTag, bytes) != Err(AuthenticationFailed)
    ensures Cut(bytes).Some? && Readable(Cut(bytes).value) && Cut(bytes).value.applicationTag == applicationTag
    ensures exists dataKey ::
              |dataKey| == DATA_KEY_LENGTH && Encoded(p, wrappingKey, Cut(bytes).value, dataKey) == Some(bytes)
  {
    var f := Cut(bytes).value;
    CutIsEncoded(bytes);
    var n := |bytes| - TAG_LENGTH - DATA_KEY_LENGTH;
    var dataKey := p.open(wrappingKey, f.nonce, bytes[..n], bytes[n + TAG_LENGTH..], bytes[n..n + TAG_LENGTH]).value;
    assert p.seal(wrappingKey, f.nonce, bytes[..n], dataKey) ==
             Some((bytes[n + TAG_LENGTH..], bytes[n..n + TAG_LENGTH]));
    assert bytes == bytes[..n] + bytes[n..n + TAG_LENGTH] + bytes[n + TAG_LENGTH..];
  }

  /** The fields are those of no state. */
  ghost predicate Stateless(p: Platform, f: Fields) {
    forall state :: WellFormed(p, state) ==> f != FieldsOf(state, f.applicationTag, f.nonce)
  }

  /** A record's fields hold a state exactly if they are the fields of one. */
  lemma StateOfFields(p: Platform, f: Fields, dataKey: Bytes)
    requires |dataKey| == DATA_KEY_LENGTH
    ensures StateOf(p, f, dataKey) == Err(Damaged) <==> Stateless(p, f)
    ensures StateOf(p, f, dataKey).Err? ==> StateOf(p, f, dataKey) == Err(Damaged)
  {
    var decoded := StateOf(p, f, dataKey);
    if decoded.Ok? {
      assert WellFormed(p, decoded.state) && f == FieldsOf(decoded.state, f.applicationTag, f.nonce);
    }
  }

  /** So two readable records are the same bytes only if they hold the same state. */
  lemma EncodingIsInjective(p: Platform, wrappingKey: Bytes, tag: Bytes, nonce: Bytes, state: State,
                            otherNonce: Bytes, other: State)
    requires Lawful(p) && WellFormed(p, state) && WellFormed(p, other)
    requires Readable(FieldsOf(state, tag, nonce)) && Readable(FieldsOf(other, tag, otherNonce))
    requires Encoded(p, wrappingKey, FieldsOf(state, tag, nonce), state.dataKey).Some?
    requires Encoded(p, wrappingKey, FieldsOf(state, tag, nonce), state.dataKey) ==
               Encoded(p, wrappingKey, FieldsOf(other, tag, otherNonce), other.dataKey)
    ensures state == other
  {
    DecodeInvertsEncodeIff(p, wrappingKey, tag, nonce, state);
    DecodeInvertsEncodeIff(p, wrappingKey, tag, otherNonce, other);
  }

  /** The bytes of a record with these fields, within the reader's bounds. */
  ghost predicate RecordOf(p: Platform, wrappingKey: Bytes, applicationTag: Bytes, f: Fields, dataKey: Bytes,
                           bytes: Bytes)
  {
    && Readable(f) && f.applicationTag == applicationTag && |dataKey| == DATA_KEY_LENGTH
    && Encoded(p, wrappingKey, f, dataKey) == Some(bytes)
  }

  lemma RecordDecodes(p: Platform, wrappingKey: Bytes, applicationTag: Bytes, f: Fields, dataKey: Bytes, bytes: Bytes)
    requires Lawful(p) && RecordOf(p, wrappingKey, applicationTag, f, dataKey, bytes)
    ensures var decoded := DecodeRecord(p, wrappingKey, applicationTag, bytes);
            decoded != Err(AuthenticationFailed) && (decoded == Err(Damaged) <==> Stateless(p, f))
  {
    EncodedIsOpened(p, wrappingKey, f, dataKey, bytes);
    StateOfFields(p, f, dataKey);
  }

  lemma DecodedIsRecord(p: Platform, wrappingKey: Bytes, applicationTag: Bytes, bytes: Bytes)
    requires Lawful(p) && DecodeRecord(p, wrappingKey, applicationTag, bytes) != Err(AuthenticationFailed)
    ensures exists f, dataKey :: RecordOf(p, wrappingKey, applicationTag, f, dataKey, bytes)
  {
    OpenedIsEncoded(p, wrappingKey, applicationTag, bytes);
    var dataKey :| |dataKey| == DATA_KEY_LENGTH && Encoded(p, wrappingKey, Cut(bytes).value, dataKey) == Some(bytes);
    assert RecordOf(p, wrappingKey, applicationTag, Cut(bytes).value, dataKey, bytes);
  }

  /** Authentication fails exactly for bytes that are no record at all under this key and application tag: another
      recovery secret, another tag and any damage look alike. Bytes that authenticate but hold no state are damaged. */
  lemma DecodeFailsIff(p: Platform, wrappingKey: Bytes, applicationTag: Bytes, bytes: Bytes)
    requires Lawful(p)
    ensures DecodeRecord(p, wrappingKey, applicationTag, bytes) == Err(AuthenticationFailed) <==>
              forall f, dataKey :: !RecordOf(p, wrappingKey, applicationTag, f, dataKey, bytes)
    ensures DecodeRecord(p, wrappingKey, applicationTag, bytes) == Err(Damaged) <==>
              exists f, dataKey :: RecordOf(p, wrappingKey, applicationTag, f, dataKey, bytes) && Stateless(p, f)
  {
    if f, dataKey :| RecordOf(p, wrappingKey, applicationTag, f, dataKey, bytes) {
      RecordDecodes(p, wrappingKey, applicationTag, f, dataKey, bytes);
      if other, otherKey :| RecordOf(p, wrappingKey, applicationTag, other, otherKey, bytes) && Stateless(p, other) {
        RecordDecodes(p, wrappingKey, applicationTag, other, otherKey, bytes);
      }
    } else if DecodeRecord(p, wrappingKey, applicationTag, bytes) != Err(AuthenticationFailed) {
      DecodedIsRecord(p, wrappingKey, applicationTag, bytes);
    }
  }

  /** The header, byte by byte: magic, version, state, algorithms and policy, and three big-endian lengths. */
  lemma HeaderLayout(f: Fields, bytes: Bytes, rest: Bytes)
    requires Fits(f) && bytes == Header(f) + rest
    ensures forall k :: 0 <= k < 8 ==> bytes[k] == "KCHVLT01"[k] as int
    ensures bytes[8] == 1 && bytes[9] == f.state && bytes[10] == bytes[11] == bytes[12] == 1 && bytes[13] == 0
    ensures 0x100 * (bytes[14] as int) + bytes[15] as int == |f.applicationTag|
    ensures 0x100 * (bytes[16] as int) + bytes[17] as int == |f.publicKey|
    ensures 0x100_0000 * (bytes[18] as int) + 0x1_0000 * (bytes[19] as int) + 0x100 * (bytes[20] as int)
            + bytes[21] as int == |f.hardwareCiphertext|
  {
    HeaderParts(f, bytes, rest);
    PrefixFields(f.state, bytes);
    assert forall k :: 0 <= k < 8 ==> bytes[k] == bytes[..8][k] == MAGIC[k];
    assert bytes[14..16][0] == bytes[14] && bytes[14..16][1] == bytes[15];
    assert bytes[16..18][0] == bytes[16] && bytes[16..18][1] == bytes[17];
    assert forall k :: 0 <= k < 4 ==> bytes[18..22][k] == bytes[18 + k];
  }

  /** The layout of a record: behind the header come application tag, public key, hardware ciphertext and nonce, which
      with the header are what is authenticated, and then the tag and the sealed data key. */
  lemma RecordLayout(p: Platform, wrappingKey: Bytes, f: Fields, dataKey: Bytes, bytes: Bytes)
    requires Encoded(p, wrappingKey, f, dataKey) == Some(bytes)
    ensures var a := 22 + |f.applicationTag|; var b := a + |f.publicKey|; var c := b + |f.hardwareCiphertext|;
            var n := c + 12;
            && |bytes| >= n && bytes[..22] == Header(f) && bytes[22..a] == f.applicationTag
            && bytes[a..b] == f.publicKey && bytes[b..c] == f.hardwareCiphertext && bytes[c..n] == f.nonce
            && exists ciphertext, tag ::
                 && p.seal(wrappingKey, f.nonce, bytes[..n], dataKey) == Some((ciphertext, tag))
                 && bytes[n..] == tag + ciphertext
  {
    var aad := AssociatedData(f);
    var sealed := p.seal(wrappingKey, f.nonce, aad, dataKey).value;
    assert bytes == aad + (sealed.1 + sealed.0);
    assert bytes[..|aad|] == aad && bytes[|aad|..] == sealed.1 + sealed.0;
    assert bytes[..22] == aad[..22] == Header(f);
    BodyParts(f, bytes, sealed.1 + sealed.0);
  }

}
