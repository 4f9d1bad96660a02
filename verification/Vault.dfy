/**
 * The local vault over time (src/lib/crypto.ts:64-87, scripts/da-vault.ts and the value-by-value
 * moves of src/lib/vault/ricifra.ts): stored values under two keys, a switch, a lock, and
 * re-encryption in either direction, in any order.
 */
module Vault {
  import opened Sequences
  import opened Crypto

  /** The two keys of an installation. */
  datatype Keys = Keys(installation: Key, data: Key)

  /** A stored text, by the sealing it prints, and the plaintext it was stored for. */
  datatype Value = Value(sealing: Sealing, plain: string)

  function Text(v: Value): string {
    Print(v.sealing)
  }

  /** `values` are the columns re-encryption visits, `access` the login secrets it leaves alone. */
  datatype World = World(table: Table, config: Config, values: seq<Value>, access: seq<Value>)

  datatype Event =
    | Encrypts(plain: string, draw: Sealing)
    | EncryptsAccess(plain: string, draw: Sealing)
    | Locks
    | Unlocks
    | Restarts(vaultOn: bool)
    | Moves(index: nat, inverse: bool, draw: Sealing)

  /** The cipher returns something new; nothing else restricts the order of events. */
  predicate Possible(w: World, e: Event) {
    (e.Encrypts? || e.EncryptsAccess? || e.Moves?) ==> Usable(w.table, e.draw)
  }

  function OldKey(ks: Keys, inverse: bool): Key {
    if inverse then ks.data else ks.installation
  }

  function NewKey(ks: Keys, inverse: bool): Key {
    if inverse then ks.installation else ks.data
  }

  /** Re-encryption runs only with the switch on and the data key open. */
  predicate CanMove(ks: Keys, w: World) {
    w.config.vaultOn && w.config.dataKey == Some(ks.data)
  }

  function Next(ks: Keys, w: World, e: Event): World {
    match e
    case Encrypts(plain, draw) =>
      (match SealingKey(w.config)
       case Err(_) => w
       case Ok(k) => w.(table := w.table[draw := Opening(k, plain)], values := w.values + [Value(draw, plain)]))
    case EncryptsAccess(plain, draw) =>
      w.(table := w.table[draw := Opening(ks.installation, plain)], access := w.access + [Value(draw, plain)])
    case Locks => w.(config := w.config.(dataKey := None))
    case Unlocks => w.(config := w.config.(dataKey := Some(ks.data)))
    case Restarts(on) => w.(config := w.config.(vaultOn := on, dataKey := None))
    case Moves(i, inverse, draw) =>
      if !CanMove(ks, w) || i >= |w.values| then w
      else
        match OpenSealing(w.table, OldKey(ks, inverse), w.values[i].sealing)
        case Err(_) => w
        case Ok(plain) =>
          w.(table := w.table[draw := Opening(NewKey(ks, inverse), plain)],
             values := w.values[i := w.values[i].(sealing := draw)])
  }

  function At(ks: Keys, w: World, events: seq<Event>, n: nat): World
    requires n <= |events|
  {
    if n == 0 then w else Next(ks, At(ks, w, events, n - 1), events[n - 1])
  }

  predicate PossibleAt(ks: Keys, w: World, events: seq<Event>, k: nat)
    requires k < |events|
  {
    Possible(At(ks, w, events, k), events[k])
  }

  predicate PossibleRun(ks: Keys, w: World, events: seq<Event>) {
    forall k :: 0 <= k < |events| ==> PossibleAt(ks, w, events, k)
  }

  predicate Under(table: Table, key: Key, v: Value) {
    v.sealing in table && table[v.sealing] == Opening(key, v.plain)
  }

  /** Every stored value is sealed under one of the two keys, every login secret under the installation key. */
  predicate Sound(ks: Keys, w: World) {
    && ks.installation != ks.data
    && w.config.installation == Some(ks.installation)
    && (w.config.dataKey.Some? ==> w.config.dataKey == Some(ks.data))
    && (forall i :: 0 <= i < |w.values| ==>
          Under(w.table, ks.installation, w.values[i]) || Under(w.table, ks.data, w.values[i]))
    && (forall i :: 0 <= i < |w.access| ==> Under(w.table, ks.installation, w.access[i]))
  }

  lemma UnderStays(table: Table, draw: Sealing, o: Opening, key: Key, v: Value)
    requires draw !in table
    ensures Under(table, key, v) ==> Under(table[draw := o], key, v)
  {
  }

  lemma UnderNew(table: Table, draw: Sealing, key: Key, plain: string)
    ensures Under(table[draw := Opening(key, plain)], key, Value(draw, plain))
  {
  }

  /** A value that moved is under the new key, with its own plaintext. */
  lemma MoveReseals(ks: Keys, w: World, e: Event)
    requires Sound(ks, w) && Possible(w, e) && e.Moves? && CanMove(ks, w) && e.index < |w.values|
    requires Under(w.table, OldKey(ks, e.inverse), w.values[e.index])
    ensures var n := Next(ks, w, e);
            && |n.values| == |w.values|
            && n.values[e.index].plain == w.values[e.index].plain
            && Under(n.table, NewKey(ks, e.inverse), n.values[e.index])
  {
    UnderNew(w.table, e.draw, NewKey(ks, e.inverse), w.values[e.index].plain);
  }

  /** A move whose value is not under the old key changes nothing. */
  lemma MoveSkips(ks: Keys, w: World, e: Event)
    requires e.Moves? && CanMove(ks, w) && e.index < |w.values|
    requires Sound(ks, w) && !Under(w.table, OldKey(ks, e.inverse), w.values[e.index])
    ensures Next(ks, w, e) == w
  {
    assert Under(w.table, NewKey(ks, e.inverse), w.values[e.index]);
  }

  lemma SoundStep(ks: Keys, w: World, e: Event)
    requires Sound(ks, w) && Possible(w, e)
    ensures Sound(ks, Next(ks, w, e))
  {
    var n := Next(ks, w, e);
    if e.Encrypts? || e.EncryptsAccess? {
      var key := if e.EncryptsAccess? then Ok(ks.installation) else SealingKey(w.config);
      if key.Ok? {
        var o := Opening(key.value, e.plain);
        UnderNew(w.table, e.draw, key.value, e.plain);
        forall i | 0 <= i < |w.values| { UnderStays(w.table, e.draw, o, ks.installation, w.values[i]); }
        forall i | 0 <= i < |w.values| { UnderStays(w.table, e.draw, o, ks.data, w.values[i]); }
        forall i | 0 <= i < |w.access| { UnderStays(w.table, e.draw, o, ks.installation, w.access[i]); }
      }
    } else if e.Moves? && CanMove(ks, w) && e.index < |w.values| {
      if Under(w.table, OldKey(ks, e.inverse), w.values[e.index]) {
        MoveReseals(ks, w, e);
        var o := Opening(NewKey(ks, e.inverse), w.values[e.index].plain);
        forall i | 0 <= i < |w.values| { UnderStays(w.table, e.draw, o, ks.installation, w.values[i]); }
        forall i | 0 <= i < |w.values| { UnderStays(w.table, e.draw, o, ks.data, w.values[i]); }
        forall i | 0 <= i < |w.access| { UnderStays(w.table, e.draw, o, ks.installation, w.access[i]); }
      } else {
        MoveSkips(ks, w, e);
      }
    }
  }

  lemma {:induction false} SoundAlways(ks: Keys, w: World, events: seq<Event>, n: nat)
    requires n <= |events| && Sound(ks, w) && PossibleRun(ks, w, events)
    ensures Sound(ks, At(ks, w, events, n))
  {
    if n > 0 {
      SoundAlways(ks, w, events, n - 1);
      assert PossibleAt(ks, w, events, n - 1);
      SoundStep(ks, At(ks, w, events, n - 1), events[n - 1]);
    }
  }

  /** Reading a stored value, in each state of the switch and the lock. */
  lemma ReadingValue(ks: Keys, w: World, v: Value)
    requires ks.installation != ks.data && w.config.installation == Some(ks.installation)
    requires w.config.dataKey.Some? ==> w.config.dataKey == Some(ks.data)
    requires Under(w.table, ks.installation, v) || Under(w.table, ks.data, v)
    ensures w.config.vaultOn && w.config.dataKey.Some? ==> Decrypt(w.table, w.config, Text(v)) == Ok(v.plain)
    ensures w.config.vaultOn && w.config.dataKey.None? ==>
              Decrypt(w.table, w.config, Text(v))
              == if Under(w.table, ks.installation, v) then Ok(v.plain) else Err(VaultLocked)
    ensures !w.config.vaultOn ==>
              Decrypt(w.table, w.config, Text(v))
              == if Under(w.table, ks.installation, v) then Ok(v.plain) else Err(NotAuthentic)
  {
    ParsePrint(v.sealing);
  }

  /**
   * In every run and at every intermediate point: with the switch on and the data key open each
   * stored value decrypts to its own plaintext; locked, exactly those under the installation key
   * are readable; login secrets are readable with the installation key throughout.
   */
  lemma EveryValueReadable(ks: Keys, w: World, events: seq<Event>, n: nat, i: nat)
    requires n <= |events| && Sound(ks, w) && PossibleRun(ks, w, events)
    ensures var s := At(ks, w, events, n);
            i < |s.values| && s.config.vaultOn ==>
              var v := s.values[i];
              && (s.config.dataKey.Some? ==> Decrypt(s.table, s.config, Text(v)) == Ok(v.plain))
              && (s.config.dataKey.None? ==>
                    (Decrypt(s.table, s.config, Text(v)) == Ok(v.plain) <==> Under(s.table, ks.installation, v)))
              && (s.config.dataKey.None? && !Under(s.table, ks.installation, v) ==>
                    Decrypt(s.table, s.config, Text(v)) == Err(VaultLocked))
    ensures var s := At(ks, w, events, n);
            i < |s.access| ==> Open(s.table, ks.installation, Text(s.access[i])) == Ok(s.access[i].plain)
  {
    SoundAlways(ks, w, events, n);
    var s := At(ks, w, events, n);
    if i < |s.values| {
      ReadingValue(ks, s, s.values[i]);
    }
    if i < |s.access| {
      ParsePrint(s.access[i].sealing);
    }
  }

  /** The switch is on and the data key is not open. */
  predicate Locked(w: World) {
    w.config.vaultOn && w.config.dataKey.None?
  }

  /**
   * From a locked state, through any events but an unlocking or a start with the switch off: the vault
   * stays locked, no encryption succeeds and no stored value is added or moved.
   */
  lemma {:induction false} LockedStretch(ks: Keys, w: World, events: seq<Event>, m: nat, n: nat)
    requires m <= n <= |events| && Locked(At(ks, w, events, m))
    requires forall k :: m <= k < n ==> !events[k].Unlocks? && (events[k].Restarts? ==> events[k].vaultOn)
    ensures Locked(At(ks, w, events, n)) && SealingKey(At(ks, w, events, n).config) == Err(VaultLocked)
    ensures At(ks, w, events, n).values == At(ks, w, events, m).values
    decreases n
  {
    if m < n {
      LockedStretch(ks, w, events, m, n - 1);
    }
  }

  lemma StepKeepsPlaintext(ks: Keys, w: World, e: Event, i: nat)
    requires i < |w.values|
    ensures |w.values| <= |Next(ks, w, e).values| && Next(ks, w, e).values[i].plain == w.values[i].plain
  {
  }

  /** The plaintexts stored never change; values are only ever added. */
  lemma {:induction false} PlaintextsKept(ks: Keys, w: World, events: seq<Event>, m: nat, n: nat, i: nat)
    requires m <= n <= |events|
    requires i < |At(ks, w, events, m).values|
    ensures |At(ks, w, events, m).values| <= |At(ks, w, events, n).values|
    ensures At(ks, w, events, n).values[i].plain == At(ks, w, events, m).values[i].plain
    decreases n
  {
    hide Next;
    if m < n {
      PlaintextsKept(ks, w, events, m, n - 1, i);
      StepKeepsPlaintext(ks, At(ks, w, events, n - 1), events[n - 1], i);
    }
  }

  // ---------- what each event does ----------

  /** After any events the switch is as the last start set it. */
  lemma {:induction false} SwitchIs(ks: Keys, w: World, events: seq<Event>, n: nat)
    requires n <= |events|
    ensures forall k: nat :: k < n && events[k].Restarts? && (forall m: nat :: k < m < n ==> !events[m].Restarts?) ==>
              At(ks, w, events, n).config.vaultOn == events[k].vaultOn
    ensures (forall m: nat :: m < n ==> !events[m].Restarts?) ==>
              At(ks, w, events, n).config.vaultOn == w.config.vaultOn
    ensures At(ks, w, events, n).config.installation == w.config.installation
  {
    if n > 0 {
      SwitchIs(ks, w, events, n - 1);
    }
  }

  predicate Closing(e: Event) {
    e.Locks? || e.Restarts?
  }

  /** The data key is open exactly when it was unlocked with no lock and no start since. */
  lemma {:induction false} OpenIff(ks: Keys, w: World, events: seq<Event>, n: nat)
    requires n <= |events|
    ensures At(ks, w, events, n).config.dataKey.Some? <==>
              || (exists k: nat :: k < n && events[k].Unlocks? && forall m: nat :: k < m < n ==> !Closing(events[m]))
              || (w.config.dataKey.Some? && forall m: nat :: m < n ==> !Closing(events[m]))
  {
    if n > 0 {
      OpenIff(ks, w, events, n - 1);
    }
  }

  /**
   * An encryption with the switch off stores one value that reads back with the switch off; with the
   * vault open, one that reads back with the data key alone; locked, none.
   */
  lemma EncryptionStores(ks: Keys, w: World, plain: string, draw: Sealing)
    requires Sound(ks, w) && Usable(w.table, draw)
    ensures var n := Next(ks, w, Encrypts(plain, draw));
            && n.config == w.config && n.access == w.access
            && (Locked(w) ==> n == w)
            && (!Locked(w) ==>
                  && |n.values| == |w.values| + 1 && n.values[..|w.values|] == w.values
                  && var v := n.values[|w.values|];
                     && v.plain == plain && Decrypt(n.table, n.config, Text(v)) == Ok(plain)
                     && Open(n.table, if w.config.vaultOn then ks.data else ks.installation, Text(v)) == Ok(plain))
  {
    ParsePrint(draw);
  }

  /** A login secret is stored whatever the switch and the lock, and reads back with the installation key. */
  lemma AccessStores(ks: Keys, w: World, plain: string, draw: Sealing)
    requires Sound(ks, w) && Usable(w.table, draw)
    ensures var n := Next(ks, w, EncryptsAccess(plain, draw));
            && n.config == w.config && n.values == w.values
            && |n.access| == |w.access| + 1 && n.access[..|w.access|] == w.access
            && n.access[|w.access|].plain == plain
            && Open(n.table, ks.installation, Text(n.access[|w.access|])) == Ok(plain)
  {
    ParsePrint(draw);
  }

  /** A move changes the stored values exactly with the vault open and a value under the key it moves from. */
  lemma MoveIff(ks: Keys, w: World, i: nat, inverse: bool, draw: Sealing)
    requires Sound(ks, w) && Usable(w.table, draw)
    ensures var n, from, to := Next(ks, w, Moves(i, inverse, draw)),
                               if inverse then ks.data else ks.installation,
                               if inverse then ks.installation else ks.data;
            && n.config == w.config && n.access == w.access
            && (w.config.vaultOn && w.config.dataKey.Some? && i < |w.values| && Under(w.table, from, w.values[i]) ==>
                  && n.values == w.values[i := Value(draw, w.values[i].plain)]
                  && Open(n.table, to, Text(n.values[i])) == Ok(w.values[i].plain))
            && (!(w.config.vaultOn && w.config.dataKey.Some? && i < |w.values| && Under(w.table, from, w.values[i])) ==>
                  n == w)
  {
    ParsePrint(draw);
    if CanMove(ks, w) && i < |w.values| && !Under(w.table, OldKey(ks, inverse), w.values[i]) {
      MoveSkips(ks, w, Moves(i, inverse, draw));
    }
  }

  // ---------- switching the vault off ----------

  /** Every value reads to its plaintext once the switch is off. */
  predicate ReadableOff(w: World) {
    forall i :: 0 <= i < |w.values| ==>
      Decrypt(w.table, w.config.(vaultOn := false, dataKey := None), Text(w.values[i])) == Ok(w.values[i].plain)
  }

  /** The switch can go off without losing a value exactly when no value is under the data key. */
  lemma ReadableOffIffNoneUnderData(ks: Keys, w: World)
    requires Sound(ks, w)
    ensures ReadableOff(w) <==> forall i :: 0 <= i < |w.values| ==> !Under(w.table, ks.data, w.values[i])
  {
    var off := w.(config := w.config.(vaultOn := false, dataKey := None));
    forall i | 0 <= i < |w.values|
      ensures Decrypt(off.table, off.config, Text(w.values[i])) == Ok(w.values[i].plain)
              <==> !Under(w.table, ks.data, w.values[i])
    {
      ReadingValue(ks, off, w.values[i]);
    }
  }

  /** Between the two positions nothing is sealed under the data key. */
  predicate OnlyInverse(events: seq<Event>, m: nat, n: nat)
    requires n <= |events|
  {
    forall k :: m <= k < n ==> !events[k].Encrypts? && !(events[k].Moves? && !events[k].inverse)
  }

  lemma OnlyInverseStep(ks: Keys, w: World, e: Event, i: nat)
    requires Sound(ks, w) && Possible(w, e) && i < |w.values|
    requires !e.Encrypts? && !(e.Moves? && !e.inverse)
    requires Under(w.table, ks.installation, w.values[i])
    ensures |Next(ks, w, e).values| == |w.values|
    ensures Under(Next(ks, w, e).table, ks.installation, Next(ks, w, e).values[i])
  {
    if e.EncryptsAccess? {
      UnderStays(w.table, e.draw, Opening(ks.installation, e.plain), ks.installation, w.values[i]);
    } else if e.Moves? && CanMove(ks, w) && e.index < |w.values| {
      if Under(w.table, ks.data, w.values[e.index]) {
        MoveReseals(ks, w, e);
        UnderStays(w.table, e.draw, Opening(ks.installation, w.values[e.index].plain), ks.installation, w.values[i]);
      } else {
        MoveSkips(ks, w, e);
      }
    }
  }

  lemma CountStep(ks: Keys, w: World, e: Event)
    requires !e.Encrypts?
    ensures |Next(ks, w, e).values| == |w.values|
  {
  }

  lemma {:induction false} InverseKeepsCount(ks: Keys, w: World, events: seq<Event>, m: nat, n: nat)
    requires m <= n <= |events| && OnlyInverse(events, m, n)
    ensures |At(ks, w, events, n).values| == |At(ks, w, events, m).values|
    decreases n
  {
    if m < n {
      InverseKeepsCount(ks, w, events, m, n - 1);
      CountStep(ks, At(ks, w, events, n - 1), events[n - 1]);
    }
  }

  /** The value at `i` is visited by an inverse move, with the vault open, between the positions. */
  ghost predicate Visited(ks: Keys, w: World, events: seq<Event>, m: nat, n: nat, i: nat)
    requires m <= n <= |events|
  {
    exists k :: m <= k < n && events[k].Moves? && events[k].inverse && events[k].index == i
                && CanMove(ks, At(ks, w, events, k))
  }

  lemma VisitReseals(ks: Keys, w: World, events: seq<Event>, k: nat)
    requires k < |events| && Sound(ks, w) && PossibleRun(ks, w, events)
    requires events[k].Moves? && events[k].inverse && CanMove(ks, At(ks, w, events, k))
    requires events[k].index < |At(ks, w, events, k).values|
    ensures var s := At(ks, w, events, k + 1);
            |s.values| == |At(ks, w, events, k).values|
            && Under(s.table, ks.installation, s.values[events[k].index])
  {
    var s := At(ks, w, events, k);
    SoundAlways(ks, w, events, k);
    assert PossibleAt(ks, w, events, k);
    if Under(s.table, ks.data, s.values[events[k].index]) {
      MoveReseals(ks, s, events[k]);
    } else {
      MoveSkips(ks, s, events[k]);
    }
  }

  /** Once moved to the installation key, a value stays there while only inverse moves run. */
  lemma {:induction false} VisitHolds(ks: Keys, w: World, events: seq<Event>, k: nat, n: nat, i: nat)
    requires k < n <= |events| && Sound(ks, w) && PossibleRun(ks, w, events) && OnlyInverse(events, k, n)
    requires events[k].Moves? && events[k].inverse && events[k].index == i && CanMove(ks, At(ks, w, events, k))
    requires i < |At(ks, w, events, k).values|
    ensures i < |At(ks, w, events, n).values|
    ensures Under(At(ks, w, events, n).table, ks.installation, At(ks, w, events, n).values[i])
    decreases n
  {
    hide Next, Under, Sound, Possible;
    if n == k + 1 {
      VisitReseals(ks, w, events, k);
    } else {
      VisitHolds(ks, w, events, k, n - 1, i);
      var before, e := At(ks, w, events, n - 1), events[n - 1];
      assert PossibleAt(ks, w, events, n - 1);
      SoundAlways(ks, w, events, n - 1);
      OnlyInverseStep(ks, before, e, i);
    }
  }

  lemma VisitedEndsUnderInstallation(ks: Keys, w: World, events: seq<Event>, m: nat, n: nat, i: nat)
    requires m <= n <= |events| && Sound(ks, w) && PossibleRun(ks, w, events) && OnlyInverse(events, m, n)
    requires i < |At(ks, w, events, m).values| && Visited(ks, w, events, m, n, i)
    ensures i < |At(ks, w, events, n).values|
    ensures Under(At(ks, w, events, n).table, ks.installation, At(ks, w, events, n).values[i])
  {
    var k :| m <= k < n && events[k].Moves? && events[k].inverse && events[k].index == i
             && CanMove(ks, At(ks, w, events, k));
    InverseKeepsCount(ks, w, events, m, k);
    VisitHolds(ks, w, events, k, n, i);
  }

  /**
   * After an inverse pass that visits every value, in any order and interleaved with anything
   * but an encryption or a forward move, everything is readable with the switch off.
   */
  lemma CompleteInversePass(ks: Keys, w: World, events: seq<Event>, m: nat, n: nat)
    requires m <= n <= |events| && Sound(ks, w) && PossibleRun(ks, w, events) && OnlyInverse(events, m, n)
    requires forall i :: 0 <= i < |At(ks, w, events, m).values| ==> Visited(ks, w, events, m, n, i)
    ensures ReadableOff(At(ks, w, events, n))
  {
    var s := At(ks, w, events, n);
    var count := |At(ks, w, events, m).values|;
    InverseKeepsCount(ks, w, events, m, n);
    SoundAlways(ks, w, events, n);
    forall i | 0 <= i < count ensures !Under(s.table, ks.data, s.values[i]) {
      VisitedEndsUnderInstallation(ks, w, events, m, n, i);
    }
    ReadableOffIffNoneUnderData(ks, s);
  }

  /** A value written with the vault open after the pass is lost to the switched-off reader. */
  lemma EncryptAfterPassBreaksIt(ks: Keys, w: World, plain: string, draw: Sealing)
    requires Sound(ks, w) && CanMove(ks, w) && Usable(w.table, draw)
    ensures !ReadableOff(Next(ks, w, Encrypts(plain, draw)))
  {
    var e := Encrypts(plain, draw);
    SoundStep(ks, w, e);
    var n := Next(ks, w, e);
    UnderNew(w.table, draw, ks.data, plain);
    assert Under(n.table, ks.data, n.values[|w.values|]);
    ReadableOffIffNoneUnderData(ks, n);
  }
}
