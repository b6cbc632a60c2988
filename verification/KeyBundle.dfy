/** Building the next key bundle: which data keys survive, and which draws are accepted. */
module KeyBundle {
  import opened Options
  import opened Records
  import opened VaultState

  function UnwrapInteractive(bundle: Bundle, passphrase: string): Option<Key> {
    if bundle.interactive.Some? && bundle.interactive.value.passphrase == passphrase && passphrase != ""
    then Some(bundle.interactive.value.key) else None
  }

  /** A fresh key from two random draws: the second counts only when the first repeats a key in use. */
  method DrawKey(draw: Key, redraw: Key, used: seq<Key>) returns (key: Option<Key>)
    ensures key.Some? ==> key.value !in used && key.value == if draw !in used then draw else redraw
    ensures key.None? <==> draw in used && redraw in used
  {
    var candidate := draw;
    if candidate in used { candidate := redraw; }
    return if candidate in used then None else Some(candidate);
  }

  function WrapBundle(previous: Bundle, machine: Key, interactive: Envelope, salt: nat): Bundle {
    Bundle(previous.vaultId, previous.generation + 1, machine, Some(interactive), salt)
  }

  method EnrollInteractive(previous: Bundle, newPassphrase: string, draw: Key, redraw: Key, salt: nat)
    returns (next: Option<Bundle>)
    ensures next.Some? <==>
              previous.interactive.None? && newPassphrase != "" &&
              (draw != previous.machine || redraw != previous.machine)
    ensures next.Some? ==> Successor(previous, next.value) && next.value.machine == previous.machine &&
                           UnwrapInteractive(next.value, newPassphrase).Some?
    ensures next.Some? ==>
              next.value.interactive == Some(Envelope(newPassphrase, if draw != previous.machine then draw else redraw))
  {
    if previous.interactive.Some? || newPassphrase == "" { return None; }
    var key := DrawKey(draw, redraw, [previous.machine]);
    if key.None? { return None; }
    return Some(WrapBundle(previous, previous.machine, Envelope(newPassphrase, key.value), salt));
  }

  /** A new passphrase wraps the same key. */
  method RewrapInteractive(previous: Bundle, current: string, newPassphrase: string, salt: nat)
    returns (next: Option<Bundle>)
    requires IndependentKeys(previous)
    ensures next.Some? <==> UnwrapInteractive(previous, current).Some? && newPassphrase != ""
    ensures next.Some? ==> Successor(previous, next.value) && next.value.machine == previous.machine &&
                           UnwrapInteractive(next.value, newPassphrase) == UnwrapInteractive(previous, current)
    ensures next.Some? ==> next.value.interactive == Some(Envelope(newPassphrase, previous.interactive.value.key))
  {
    var key := UnwrapInteractive(previous, current);
    if key.None? || newPassphrase == "" { return None; }
    return Some(WrapBundle(previous, previous.machine, Envelope(newPassphrase, key.value), salt));
  }

  /** A new machine key; the interactive key and its passphrase stay. */
  method RotateMachine(previous: Bundle, passphrase: string, interactiveKey: Key, draw: Key, redraw: Key, salt: nat)
    returns (next: Option<Bundle>)
    ensures next.Some? <==>
              && previous.interactive.Some? && passphrase != ""
              && (draw !in [interactiveKey, previous.machine] || redraw !in [interactiveKey, previous.machine])
    ensures next.Some? ==> Successor(previous, next.value) && next.value.machine != previous.machine &&
                           UnwrapInteractive(next.value, passphrase) == Some(interactiveKey)
  {
    if previous.interactive.None? || passphrase == "" { return None; }
    var key := DrawKey(draw, redraw, [interactiveKey, previous.machine]);
    if key.None? { return None; }
    return Some(WrapBundle(previous, key.value, Envelope(passphrase, interactiveKey), salt));
  }

  /** The same vault, one generation later, with two independent keys. */
  predicate Successor(previous: Bundle, next: Bundle) {
    && next.vaultId == previous.vaultId && next.generation == previous.generation + 1
    && next.interactive.Some? && IndependentKeys(next)
  }

  /** Rows stay readable under a successor that keeps the keys they use. */
  lemma RowsSurvive(previous: Bundle, next: Bundle, rows: Rows)
    requires RowsSound(previous, rows) && Successor(previous, next)
    requires next.machine == previous.machine || OfClass(rows, Machine) == {}
    requires previous.interactive.None? || InteractiveKeyOf(next) == InteractiveKeyOf(previous)
    ensures RowsSound(next, rows)
  {
    forall id | id in rows ensures RowSound(next, id, rows[id]) {
      assert RowSound(previous, id, rows[id]);
      assert rows[id].keyClass == Machine ==> id in OfClass(rows, Machine);
    }
  }
}
