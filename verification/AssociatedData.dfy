/** The associated data that binds a ciphertext to its record: length-prefixed fields behind a magic and a version. */
module AssociatedData {
  import opened Options
  import opened Bytes
  import opened Records

  const LEGACY_VAULT_FORMAT_VERSION := 2

  // "keyclasp:record-aad:v1" and "keyclasp:record-aad:v2", each with a terminating zero byte.
  const RECORD_AAD_DOMAIN: Bytes :=
    [107, 101, 121, 99, 108, 97, 115, 112, 58, 114, 101, 99, 111, 114, 100, 45, 97, 97, 100, 58, 118]
  const LEGACY_RECORD_AAD_MAGIC: Bytes := RECORD_AAD_DOMAIN + [49, 0]
  const RECORD_AAD_MAGIC: Bytes := RECORD_AAD_DOMAIN + [50, 0]

  // "machine" and "interactive"
  const MACHINE: Bytes := [109, 97, 99, 104, 105, 110, 101]
  const INTERACTIVE: Bytes := [105, 110, 116, 101, 114, 97, 99, 116, 105, 118, 101]

  /** The text fields are given as their UTF-8 bytes. */
  datatype RecordIdentity = RecordIdentity(vaultId: Bytes, recordId: Bytes, project: Bytes, environment: Bytes,
                                           name: Bytes, recordKind: Bytes, keyClass: KeyClass)

  predicate ShortFields(id: RecordIdentity) {
    && |id.vaultId| < 0x1_0000_0000 && |id.recordId| < 0x1_0000_0000 && |id.project| < 0x1_0000_0000
    && |id.environment| < 0x1_0000_0000 && |id.name| < 0x1_0000_0000 && |id.recordKind| < 0x1_0000_0000
  }

  function CanonicalField(bytes: Bytes): Bytes
    requires |bytes| < 0x1_0000_0000
  {
    U32(|bytes|) + bytes
  }

  function KeyClassName(keyClass: KeyClass): Bytes { if keyClass == Machine then MACHINE else INTERACTIVE }

  /** All fields; the legacy version has none for the key class. */
  function CanonicalFields(id: RecordIdentity, formatVersion: nat): Bytes
    requires ShortFields(id)
  {
    CanonicalField(id.vaultId) + (CanonicalField(id.recordId) + (CanonicalField(id.project) +
    (CanonicalField(id.environment) + (CanonicalField(id.name) + (CanonicalField(id.recordKind) +
    (if formatVersion == LEGACY_VAULT_FORMAT_VERSION then [] else CanonicalField(KeyClassName(id.keyClass))))))))
  }

  function BuildRecordAssociatedData(id: RecordIdentity, formatVersion: nat): Bytes
    requires ShortFields(id) && formatVersion < 0x1_0000_0000
  {
    (if formatVersion == LEGACY_VAULT_FORMAT_VERSION then LEGACY_RECORD_AAD_MAGIC else RECORD_AAD_MAGIC) +
    (U32(formatVersion) + CanonicalFields(id, formatVersion))
  }

  /** A length-prefixed field ends where its length says, so it can be told from what follows. */
  lemma FieldIsPrefixFree(a: Bytes, b: Bytes, restA: Bytes, restB: Bytes)
    requires |a| < 0x1_0000_0000 && |b| < 0x1_0000_0000
    requires CanonicalField(a) + restA == CanonicalField(b) + restB
    ensures a == b && restA == restB
  {
    assert CanonicalField(a) + restA == U32(|a|) + (a + restA) && CanonicalField(b) + restB == U32(|b|) + (b + restB);
    SamePrefix(U32(|a|), U32(|b|), a + restA, b + restB);
    SamePrefix(a, b, restA, restB);
  }

  lemma FieldsDetermine(x: RecordIdentity, y: RecordIdentity, version: nat)
    requires ShortFields(x) && ShortFields(y) && CanonicalFields(x, version) == CanonicalFields(y, version)
    ensures x == y.(keyClass := x.keyClass) && (version != LEGACY_VAULT_FORMAT_VERSION ==> x == y)
  {
    var kx := if version == LEGACY_VAULT_FORMAT_VERSION then [] else CanonicalField(KeyClassName(x.keyClass));
    var ky := if version == LEGACY_VAULT_FORMAT_VERSION then [] else CanonicalField(KeyClassName(y.keyClass));
    var ex, ey := CanonicalField(x.recordKind) + kx, CanonicalField(y.recordKind) + ky;
    var dx, dy := CanonicalField(x.name) + ex, CanonicalField(y.name) + ey;
    var cx, cy := CanonicalField(x.environment) + dx, CanonicalField(y.environment) + dy;
    var bx, by_ := CanonicalField(x.project) + cx, CanonicalField(y.project) + cy;
    var ax, ay := CanonicalField(x.recordId) + bx, CanonicalField(y.recordId) + by_;
    FieldIsPrefixFree(x.vaultId, y.vaultId, ax, ay);
    FieldIsPrefixFree(x.recordId, y.recordId, bx, by_);
    FieldIsPrefixFree(x.project, y.project, cx, cy);
    FieldIsPrefixFree(x.environment, y.environment, dx, dy);
    FieldIsPrefixFree(x.name, y.name, ex, ey);
    FieldIsPrefixFree(x.recordKind, y.recordKind, kx, ky);
    if version != LEGACY_VAULT_FORMAT_VERSION {
      assert kx + [] == kx && ky + [] == ky;
      FieldIsPrefixFree(KeyClassName(x.keyClass), KeyClassName(y.keyClass), [], []);
      assert MACHINE[0] != INTERACTIVE[0];
    }
  }

  /** Associated data is the same only for the same format version and the same identity, where the legacy version
      alone does not see the key class. */
  lemma AssociatedDataIsInjectiveIff(x: RecordIdentity, y: RecordIdentity, version: nat, other: nat)
    requires ShortFields(x) && ShortFields(y) && version < 0x1_0000_0000 && other < 0x1_0000_0000
    ensures BuildRecordAssociatedData(x, version) == BuildRecordAssociatedData(y, other) <==>
              && version == other
              && (x == y || (version == LEGACY_VAULT_FORMAT_VERSION && x == y.(keyClass := x.keyClass)))
  {
    if BuildRecordAssociatedData(x, version) == BuildRecordAssociatedData(y, other) {
      var mx := if version == LEGACY_VAULT_FORMAT_VERSION then LEGACY_RECORD_AAD_MAGIC else RECORD_AAD_MAGIC;
      var my := if other == LEGACY_VAULT_FORMAT_VERSION then LEGACY_RECORD_AAD_MAGIC else RECORD_AAD_MAGIC;
      SamePrefix(mx, my, U32(version) + CanonicalFields(x, version), U32(other) + CanonicalFields(y, other));
      SamePrefix(U32(version), U32(other), CanonicalFields(x, version), CanonicalFields(y, other));
      assert version == FromU32(U32(version)) == FromU32(U32(other)) == other;
      FieldsDetermine(x, y, version);
    }
  }

  // ---- reading the fields back ------------------------------------------------------------------------------------

  /** The bytes of an ASCII text: seven bits of each character. */
  function Ascii(text: string): Bytes {
    seq(|text|, k requires 0 <= k < |text| => text[k] as int % 128)
  }

  /** One length-prefixed field, and what follows it. */
  function ReadField(bytes: Bytes): (r: Option<(Bytes, Bytes)>)
    ensures r.Some? ==> |r.value.1| < |bytes|
  {
    if |bytes| < 4 then None
    else
      var end := 4 + FromU32(bytes[..4]);
      if end > |bytes| then None else Some((bytes[4..end], bytes[end..]))
  }

  function ReadFields(bytes: Bytes): Option<seq<Bytes>>
    decreases |bytes|
  {
    if bytes == [] then Some([])
    else
      match ReadField(bytes)
      case None => None
      case Some((field, rest)) =>
        match ReadFields(rest)
        case None => None
        case Some(fields) => Some([field] + fields)
  }

  lemma ReadFieldsStep(field: Bytes, rest: Bytes, fields: seq<Bytes>)
    requires |field| < 0x1_0000_0000 && ReadFields(rest) == Some(fields)
    ensures ReadFields(CanonicalField(field) + rest) == Some([field] + fields)
  {
    var bytes := CanonicalField(field) + rest;
    assert bytes[..4] == U32(|field|) && bytes[4..4 + |field|] == field && bytes[4 + |field|..] == rest;
  }

  lemma Listed(a: Bytes, b: Bytes, c: Bytes, d: Bytes, e: Bytes, f: Bytes, rest: seq<Bytes>)
    ensures [a] + ([b] + ([c] + ([d] + ([e] + ([f] + rest))))) == [a, b, c, d, e, f] + rest
  {
  }

  /** The key class as the last field, which the legacy version does not have. */
  function ClassField(id: RecordIdentity, version: nat): seq<Bytes> {
    if version == 2 then [] else [Ascii(if id.keyClass == Machine then "machine" else "interactive")]
  }

  lemma ClassFieldIsRead(id: RecordIdentity, version: nat)
    ensures ReadFields(if version == LEGACY_VAULT_FORMAT_VERSION then [] else CanonicalField(KeyClassName(id.keyClass)))
              == Some(ClassField(id, version))
  {
    var class_ := KeyClassName(id.keyClass);
    assert class_ == Ascii(if id.keyClass == Machine then "machine" else "interactive");
    ReadFieldsStep(class_, [], []);
    assert CanonicalField(class_) + [] == CanonicalField(class_) && [class_] + [] == [class_];
  }

  /** The fields in their order: what a reader of the length prefixes finds. */
  lemma FieldsInOrder(id: RecordIdentity, version: nat)
    requires ShortFields(id)
    ensures ReadFields(CanonicalFields(id, version)) ==
              Some([id.vaultId, id.recordId, id.project, id.environment, id.name, id.recordKind] +
                   ClassField(id, version))
  {
    var class_ := if version == LEGACY_VAULT_FORMAT_VERSION then [] else CanonicalField(KeyClassName(id.keyClass));
    var kind := CanonicalField(id.recordKind) + class_;
    var name := CanonicalField(id.name) + kind;
    var environment := CanonicalField(id.environment) + name;
    var project := CanonicalField(id.project) + environment;
    var recordId := CanonicalField(id.recordId) + project;
    ClassFieldIsRead(id, version);
    var e := [id.recordKind] + ClassField(id, version);
    var d := [id.name] + e;
    var c := [id.environment] + d;
    var b := [id.project] + c;
    ReadFieldsStep(id.recordKind, class_, ClassField(id, version));
    ReadFieldsStep(id.name, kind, e);
    ReadFieldsStep(id.environment, name, d);
    ReadFieldsStep(id.project, environment, c);
    ReadFieldsStep(id.recordId, project, b);
    ReadFieldsStep(id.vaultId, recordId, [id.recordId] + b);
    Listed(id.vaultId, id.recordId, id.project, id.environment, id.name, id.recordKind, ClassField(id, version));
  }

  lemma Domains(version: nat)
    ensures (if version == LEGACY_VAULT_FORMAT_VERSION then LEGACY_RECORD_AAD_MAGIC else RECORD_AAD_MAGIC) ==
              Ascii(if version == 2 then "keyclasp:record-aad:v1" else "keyclasp:record-aad:v2") + [0]
  {
  }

  /** Associated data is a domain with its version, the format version, and then the fields in their order. */
  lemma AssociatedDataLayout(id: RecordIdentity, version: nat)
    requires ShortFields(id) && version < 0x1_0000_0000
    ensures var bytes := BuildRecordAssociatedData(id, version);
            && |bytes| >= 27
            && bytes[..23] == Ascii(if version == 2 then "keyclasp:record-aad:v1" else "keyclasp:record-aad:v2") + [0]
            && bytes[23..27] == U32(version)
            && ReadFields(bytes[27..]) ==
                 Some([id.vaultId, id.recordId, id.project, id.environment, id.name, id.recordKind] +
                      ClassField(id, version))
  {
    Domains(version);
    FieldsInOrder(id, version);
    var magic := if version == LEGACY_VAULT_FORMAT_VERSION then LEGACY_RECORD_AAD_MAGIC else RECORD_AAD_MAGIC;
    ThreeParts(magic, U32(version), CanonicalFields(id, version));
  }

  lemma ThreeParts(magic: Bytes, version: Bytes, rest: Bytes)
    requires |magic| == 23 && |version| == 4
    ensures var bytes := magic + (version + rest);
            bytes[..23] == magic && bytes[23..27] == version && bytes[27..] == rest
  {
    var bytes := magic + (version + rest);
    assert bytes[23..] == version + rest;
    assert bytes[23..27] == bytes[23..][..4] && bytes[27..] == bytes[23..][4..];
  }
}
