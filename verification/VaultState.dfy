/**
 The vault at rest: sealed rows, the key bundle, and the metadata that ties them together.

 Encryption is symbolic: a sealed value opens only under the same key and the same associated data.
*/
module VaultState {
  import opened Options
  import opened Records

  type Key = nat

  /** The associated data of one record; its encoding is injective (see `AssociatedData`). */
  datatype RecordBinding = RecordBinding(vaultId: nat, recordId: nat, identity: Identity, keyClass: KeyClass)

  datatype Sealed = Sealed(key: Key, binding: RecordBinding, value: string)

  function Open(sealed: Sealed, key: Key, binding: RecordBinding): Option<string> {
    if sealed.key == key && sealed.binding == binding then Some(sealed.value) else None
  }

  datatype Row = Row(recordId: nat, keyClass: KeyClass, sealed: Sealed)

  type Rows = map<Identity, Row>

  /** A data key wrapped under a passphrase. */
  datatype Envelope = Envelope(passphrase: string, key: Key)

  /** `salt` stands for the random salts and nonces of the envelopes. */
  datatype Bundle = Bundle(vaultId: nat, generation: nat, machine: Key, interactive: Option<Envelope>, salt: nat)

  /** Hashes and key checks are injective: the database holds the bundle its hash was taken of, and the keys its
      checks accept. `sanitization` is the required flag with the generation it was raised at; `residue` is what
      tightenings left of machine-sealed values in the database file outside the rows. */
  datatype Database = Database(rows: Rows, vaultId: nat, bundleGeneration: nat, bundleHash: Bundle, machineCheck: Key,
                               interactiveCheck: Option<Key>, sanitization: Option<nat>, residue: set<Sealed>)

  function InteractiveKeyOf(bundle: Bundle): Option<Key> {
    if bundle.interactive.Some? then Some(bundle.interactive.value.key) else None
  }

  function BindingOf(bundle: Bundle, id: Identity, row: Row): RecordBinding {
    RecordBinding(bundle.vaultId, row.recordId, id, row.keyClass)
  }

  predicate HasKey(bundle: Bundle, keyClass: KeyClass) {
    keyClass == Interactive ==> bundle.interactive.Some?
  }

  function KeyOf(bundle: Bundle, keyClass: KeyClass): Key
    requires HasKey(bundle, keyClass)
  {
    if keyClass == Machine then bundle.machine else bundle.interactive.value.key
  }

  /** A row opens under the bundle's key for its class, at its own place in the table. */
  predicate RowSound(bundle: Bundle, id: Identity, row: Row) {
    && HasKey(bundle, row.keyClass) && row.sealed.key == KeyOf(bundle, row.keyClass)
    && row.sealed.binding == BindingOf(bundle, id, row)
  }

  ghost predicate RowsSound(bundle: Bundle, rows: Rows) {
    && (forall id :: id in rows ==> RowSound(bundle, id, rows[id]))
    && (forall id, other :: id in rows && other in rows && rows[id].recordId == rows[other].recordId ==> id == other)
  }

  /** What the database says of the bundle. */
  predicate Validated(bundle: Bundle, db: Database) {
    && db.vaultId == bundle.vaultId && db.bundleGeneration == bundle.generation && db.bundleHash == bundle
    && db.interactiveCheck.Some? == bundle.interactive.Some?
  }

  predicate KeysChecked(bundle: Bundle, db: Database) {
    db.machineCheck == bundle.machine && db.interactiveCheck == InteractiveKeyOf(bundle)
  }

  predicate IndependentKeys(bundle: Bundle) {
    InteractiveKeyOf(bundle) != Some(bundle.machine)
  }

  /** The vault as every completed operation leaves it. */
  ghost predicate Sound(bundle: Bundle, db: Database) {
    && Validated(bundle, db) && KeysChecked(bundle, db) && IndependentKeys(bundle) && RowsSound(bundle, db.rows)
    && (db.sanitization.None? ==> db.residue == {})
  }

  /** The plain map the vault stands for. */
  function View(rows: Rows): map<Identity, string> {
    map id | id in rows :: rows[id].sealed.value
  }

  function Classes(rows: Rows): map<Identity, KeyClass> {
    map id | id in rows :: rows[id].keyClass
  }

  /** What a row means, apart from its ciphertext. */
  datatype Meaning = Meaning(value: string, keyClass: KeyClass, recordId: nat)

  function MeaningOf(row: Row): Meaning { Meaning(row.sealed.value, row.keyClass, row.recordId) }

  function Meanings(rows: Rows): map<Identity, Meaning> {
    map id | id in rows :: MeaningOf(rows[id])
  }

  function OfClass(rows: Rows, keyClass: KeyClass): set<Identity> {
    set id | id in rows && rows[id].keyClass == keyClass
  }

  function Seal(bundle: Bundle, id: Identity, recordId: nat, keyClass: KeyClass, key: Key, value: string): Row {
    Row(recordId, keyClass, Sealed(key, RecordBinding(bundle.vaultId, recordId, id, keyClass), value))
  }

  /** A ciphertext copied to any other place, class or record id does not open there. */
  lemma MovedCiphertextIsRejected(bundle: Bundle, id: Identity, row: Row, other: Identity, copy: Row, key: Key)
    requires RowSound(bundle, id, row) && copy.sealed == row.sealed
    ensures Open(copy.sealed, key, BindingOf(bundle, other, copy)).Some? <==>
              key == KeyOf(bundle, row.keyClass) && other == id && copy == row
  {
  }
}
