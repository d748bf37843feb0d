/**
 services/key_unlock_service.py: enrolling a token for a key, with rollback
 when a step fails, and recovering the passphrase from the stored slots.

 GnuPG's keyring is a map from fingerprint to passphrase.  Which database
 statements, token operations and GnuPG calls fail is an input.
 */
module KeyUnlock {
  import opened Wrappers
  import opened Bytes
  import VaultModel
  import VaultSeal
  import opened UnlockSlots
  import opened UnlockStore

  // ---------------------------------------------------------------- the token

  /** What the token does when asked for the secret of one binding. */
  datatype TokenReply = Prf(raw: Option<bytes>) | Unavailable | PinRefused | NotTouched | NotThisToken

  /** `_is_fatal_token_error`. */
  predicate Fatal(r: TokenReply) { r.Unavailable? || r.PinRefused? || r.NotTouched? }

  /** `FidoService.derive`: only a secret of the right length leaves it. */
  function Derived(r: TokenReply): (d: Option<bytes>)
    ensures d.Some? ==> |d.value| == TOKEN_SECRET_LEN
  {
    if r.Prf? && r.raw.Some? && |r.raw.value| == TOKEN_SECRET_LEN then r.raw else None
  }

  // ---------------------------------------------------------------- the slot-trying loops

  datatype Outcome = Recovered(secret: bytes) | Aborted(cause: TokenReply) | NothingOpened

  datatype Attempt = Opens(secret: bytes) | Stops(cause: TokenReply) | Skips

  /** How the user tries to open a key: `replies(id)` is what the token says when asked for the binding of row `id`. */
  datatype Way = ByToken(replies: nat -> TokenReply) | ByPassphrase(passphrase: bytes)

  /** Token slots for the token, passphrase slots for the passphrase. */
  predicate Suits(w: Way, s: UnlockSlot) { w.ByToken? == s.FidoSlot? }

  /** One turn of either loop. */
  function Try(x: VaultSeal.Crypto, w: Way, e: (nat, UnlockSlot)): Attempt
    requires Suits(w, e.1)
  {
    match w
    case ByToken(replies) =>
      var reply := replies(e.0);
      if Fatal(reply) then Stops(reply)
      else if Derived(reply).None? then Skips
      else Opened(UnwrapWithToken(x, e.1, Derived(reply).value))
    case ByPassphrase(passphrase) => Opened(UnwrapWithPassphrase(x, e.1, passphrase))
  }

  function Opened(r: Result<bytes, SlotError>): Attempt {
    match r case Ok(secret) => Opens(secret) case Err(_) => Skips
  }

  /** The result of a loop that makes these attempts in order. */
  function FirstOf(attempts: seq<Attempt>): Outcome {
    if attempts == [] then NothingOpened
    else
      match attempts[0]
      case Opens(secret) => Recovered(secret)
      case Stops(cause) => Aborted(cause)
      case Skips => FirstOf(attempts[1..])
  }

  /** The secret of the first attempt that opens comes back, exactly when nothing fatal precedes it. */
  lemma {:induction false} RecoversIff(attempts: seq<Attempt>, secret: bytes)
    ensures FirstOf(attempts) == Recovered(secret)
       <==> exists i :: 0 <= i < |attempts| && attempts[i] == Opens(secret) && forall j | 0 <= j < i :: attempts[j] == Skips
  {
    if attempts != [] && attempts[0].Skips? {
      var rest := attempts[1..];
      RecoversIff(rest, secret);
      if i :| 0 <= i < |rest| && rest[i] == Opens(secret) && forall j | 0 <= j < i :: rest[j] == Skips {
        assert attempts[i + 1] == Opens(secret);
        assert forall j | 0 < j < i + 1 :: attempts[j] == rest[j - 1];
      }
      if i :| 0 <= i < |attempts| && attempts[i] == Opens(secret) && forall j | 0 <= j < i :: attempts[j] == Skips {
        assert rest[i - 1] == attempts[i];
        assert forall j | 0 <= j < i - 1 :: rest[j] == attempts[j + 1];
      }
    } else if attempts != [] {
      assert FirstOf(attempts) == Recovered(secret) <==> attempts[0] == Opens(secret);
    }
  }

  lemma FirstOfNext(attempts: seq<Attempt>, i: nat)
    requires i < |attempts|
    ensures FirstOf(attempts[i..]) == match attempts[i]
                                      case Opens(secret) => Recovered(secret)
                                      case Stops(cause) => Aborted(cause)
                                      case Skips => FirstOf(attempts[i + 1..])
  {
    assert attempts[i..][0] == attempts[i] && attempts[i..][1..] == attempts[i + 1..];
  }

  /** Splitting the attempts: the second half only matters when the first half all skips. */
  lemma {:induction false} FirstOfConcat(a: seq<Attempt>, b: seq<Attempt>)
    ensures FirstOf(a + b) == if FirstOf(a) == NothingOpened then FirstOf(b) else FirstOf(a)
  {
    if a == [] {
      assert a + b == b;
    } else {
      assert (a + b)[1..] == a[1..] + b;
      FirstOfConcat(a[1..], b);
    }
  }

  // ---------------------------------------------------------------- which slots are tried

  function Suited(w: Way, slots: seq<(nat, UnlockSlot)>): (r: seq<(nat, UnlockSlot)>)
    ensures forall i | 0 <= i < |r| :: Suits(w, r[i].1)
  {
    if slots == [] then []
    else if Suits(w, slots[0].1) then [slots[0]] + Suited(w, slots[1..])
    else Suited(w, slots[1..])
  }

  predicate InIdOrder(slots: seq<(nat, UnlockSlot)>) { forall i, j | 0 <= i < j < |slots| :: slots[i].0 < slots[j].0 }

  lemma {:induction false} SuitedFacts(w: Way, slots: seq<(nat, UnlockSlot)>)
    ensures forall e :: e in Suited(w, slots) <==> e in slots && Suits(w, e.1)
    ensures InIdOrder(slots) ==> InIdOrder(Suited(w, slots))
  {
    if slots != [] {
      SuitedFacts(w, slots[1..]);
      var rest := Suited(w, slots[1..]);
      if InIdOrder(slots) {
        forall k | 0 <= k < |rest|
          ensures slots[0].0 < rest[k].0
        {
          assert rest[k] in slots[1..];
        }
      }
    }
  }

  function Attempts(x: VaultSeal.Crypto, w: Way, tried: seq<(nat, UnlockSlot)>): (r: seq<Attempt>)
    requires forall i | 0 <= i < |tried| :: Suits(w, tried[i].1)
    ensures |r| == |tried|
  {
    seq(|tried|, i requires 0 <= i < |tried| => Try(x, w, tried[i]))
  }

  /** What going through these rows in order gives. */
  function Unlocking(x: VaultSeal.Crypto, w: Way, slots: seq<(nat, UnlockSlot)>): Outcome {
    FirstOf(Attempts(x, w, Suited(w, slots)))
  }

  // ---------------------------------------------------------------- what a call returns, row by row

  /** This row opens, to this secret, and every row tried before it is skipped. */
  ghost predicate OpensFirst(x: VaultSeal.Crypto, w: Way, slots: seq<(nat, UnlockSlot)>, e: (nat, UnlockSlot), secret: bytes) {
    && e in slots && Suits(w, e.1) && Try(x, w, e) == Opens(secret)
    && forall d | d in slots && Suits(w, d.1) && d.0 < e.0 :: Try(x, w, d) == Skips
  }

  lemma OpensFirstIsReached(x: VaultSeal.Crypto, w: Way, slots: seq<(nat, UnlockSlot)>, e: (nat, UnlockSlot), secret: bytes)
    requires InIdOrder(slots) && OpensFirst(x, w, slots, e, secret)
    ensures Unlocking(x, w, slots) == Recovered(secret)
  {
    var tried := Suited(w, slots);
    var attempts := Attempts(x, w, tried);
    SuitedFacts(w, slots);
    assert e in tried;
    var i :| 0 <= i < |tried| && tried[i] == e;
    assert attempts[i] == Try(x, w, e);
    forall j | 0 <= j < i
      ensures attempts[j] == Skips
    {
      assert tried[j] in tried;
      assert attempts[j] == Try(x, w, tried[j]);
    }
    RecoversIff(attempts, secret);
  }

  lemma RecoveredFrom(x: VaultSeal.Crypto, w: Way, slots: seq<(nat, UnlockSlot)>, secret: bytes) returns (e: (nat, UnlockSlot))
    requires InIdOrder(slots) && Unlocking(x, w, slots) == Recovered(secret)
    ensures OpensFirst(x, w, slots, e, secret)
  {
    var tried := Suited(w, slots);
    var attempts := Attempts(x, w, tried);
    SuitedFacts(w, slots);
    RecoversIff(attempts, secret);
    var i :| 0 <= i < |attempts| && attempts[i] == Opens(secret) && forall j | 0 <= j < i :: attempts[j] == Skips;
    e := tried[i];
    assert e in tried;
    forall d | d in slots && Suits(w, d.1) && d.0 < e.0
      ensures Try(x, w, d) == Skips
    {
      assert d in tried;
      SkippedBefore(x, w, tried, i, d);
    }
  }

  lemma SkippedBefore(x: VaultSeal.Crypto, w: Way, tried: seq<(nat, UnlockSlot)>, i: nat, d: (nat, UnlockSlot))
    requires InIdOrder(tried) && i < |tried| && d in tried && d.0 < tried[i].0
    requires forall k | 0 <= k < |tried| :: Suits(w, tried[k].1)
    requires forall j | 0 <= j < i :: Attempts(x, w, tried)[j] == Skips
    ensures Try(x, w, d) == Skips
  {
    var j :| 0 <= j < |tried| && tried[j] == d;
    assert j < i;
    assert Attempts(x, w, tried)[j] == Try(x, w, d);
  }

  lemma SlotsOrdered(rows: map<nat, Row>, fp: string, upTo: nat)
    ensures InIdOrder(SlotsBelow(rows, fp, upTo))
  {
    SlotsBelowFacts(rows, fp, upTo);
  }

  /**
   For every table, every way and every mix of rows: a secret is returned if and
   only if it is what the first row that does not skip opens to.
   */
  lemma ReturnsIff(x: VaultSeal.Crypto, w: Way, rows: map<nat, Row>, fp: string, upTo: nat, secret: bytes)
    ensures var slots := SlotsBelow(rows, fp, upTo);
            Unlocking(x, w, slots) == Recovered(secret) <==> exists e :: OpensFirst(x, w, slots, e, secret)
  {
    var slots := SlotsBelow(rows, fp, upTo);
    SlotsOrdered(rows, fp, upTo);
    if Unlocking(x, w, slots) == Recovered(secret) {
      var e := RecoveredFrom(x, w, slots, secret);
    }
    if e :| OpensFirst(x, w, slots, e, secret) {
      OpensFirstIsReached(x, w, slots, e, secret);
    }
  }

  /** This row opens, and no row before it meets an error that ends the loop. */
  ghost predicate Reachable(x: VaultSeal.Crypto, w: Way, slots: seq<(nat, UnlockSlot)>, e: (nat, UnlockSlot)) {
    && e in slots && Suits(w, e.1) && Try(x, w, e).Opens?
    && forall d | d in slots && Suits(w, d.1) && d.0 < e.0 :: !Try(x, w, d).Stops?
  }

  /** Unlocking succeeds if and only if some row opens and no row with a lower id meets a fatal error. */
  lemma SucceedsIff(x: VaultSeal.Crypto, w: Way, rows: map<nat, Row>, fp: string, upTo: nat)
    ensures var slots := SlotsBelow(rows, fp, upTo);
            Unlocking(x, w, slots).Recovered? <==> exists e :: Reachable(x, w, slots, e)
  {
    var slots := SlotsBelow(rows, fp, upTo);
    SlotsOrdered(rows, fp, upTo);
    if Unlocking(x, w, slots).Recovered? {
      var e := RecoveredFrom(x, w, slots, Unlocking(x, w, slots).secret);
      assert Reachable(x, w, slots, e);
    }
    if e :| Reachable(x, w, slots, e) {
      ReachableSucceeds(x, w, slots, e);
    }
  }

  lemma ReachableSucceeds(x: VaultSeal.Crypto, w: Way, slots: seq<(nat, UnlockSlot)>, e: (nat, UnlockSlot))
    requires InIdOrder(slots) && Reachable(x, w, slots, e)
    ensures Unlocking(x, w, slots).Recovered?
  {
    var tried := Suited(w, slots);
    var attempts := Attempts(x, w, tried);
    SuitedFacts(w, slots);
    assert e in tried;
    var i :| 0 <= i < |tried| && tried[i] == e;
    assert attempts[i] == Try(x, w, e);
    forall j | 0 <= j < i
      ensures !attempts[j].Stops?
    {
      assert tried[j] in tried;
      assert attempts[j] == Try(x, w, tried[j]);
    }
    OpensUnlessStopped(attempts, i);
  }

  lemma {:induction false} OpensUnlessStopped(attempts: seq<Attempt>, i: nat)
    requires i < |attempts| && attempts[i].Opens? && forall j | 0 <= j < i :: !attempts[j].Stops?
    ensures FirstOf(attempts).Recovered?
  {
    if attempts[0].Skips? {
      OpensUnlessStopped(attempts[1..], i - 1);
    }
  }

  /** What a row opens to is the secret it was sealed with, and to open it takes the key it was sealed under. */
  lemma RowGivesItsSecret(x: VaultSeal.Crypto, w: Way, e: (nat, UnlockSlot), secret: bytes, key: bytes)
    requires VaultSeal.Ideal(x) && VaultSeal.KeyBound(x) && SealedUnder(x, e.1, key, secret) && Suits(w, e.1)
    ensures Try(x, w, e).Opens? ==> Try(x, w, e) == Opens(secret)
    ensures w.ByToken? ==> (Try(x, w, e).Opens? <==> Derived(w.replies(e.0)) == Some(key))
    ensures w.ByPassphrase? ==> (Try(x, w, e).Opens? <==> x.derive(w.passphrase, e.1.kdf.salt, e.1.kdf.ToParams()) == key)
  {
    match w
    case ByToken(replies) =>
      if Derived(replies(e.0)).Some? {
        OpensExactly(x, e.1, secret, key, Derived(replies(e.0)).value);
      }
    case ByPassphrase(p) => OpensExactly(x, e.1, secret, key, x.derive(p, e.1.kdf.salt, e.1.kdf.ToParams()));
  }

  /**
   Changing the table around the row that opens, by deleting, adding or altering
   any other rows, leaves what is recovered unless a row that now comes before it
   opens or meets a fatal error.
   */
  lemma OtherRows(x: VaultSeal.Crypto, w: Way, rows: map<nat, Row>, rows': map<nat, Row>, fp: string, upTo: nat, upTo': nat,
                  e: (nat, UnlockSlot), secret: bytes)
    requires OpensFirst(x, w, SlotsBelow(rows, fp, upTo), e, secret)
    requires e.0 < upTo' && e.0 in rows' && rows'[e.0] == Row(fp, Some(e.1))
    requires forall d | d in SlotsBelow(rows', fp, upTo') && Suits(w, d.1) && d.0 < e.0 :: Try(x, w, d) == Skips
    ensures Unlocking(x, w, SlotsBelow(rows, fp, upTo)) == Unlocking(x, w, SlotsBelow(rows', fp, upTo')) == Recovered(secret)
  {
    SlotsBelowFacts(rows, fp, upTo);
    SlotsBelowFacts(rows', fp, upTo');
    OpensFirstIsReached(x, w, SlotsBelow(rows, fp, upTo), e, secret);
    OpensFirstIsReached(x, w, SlotsBelow(rows', fp, upTo'), e, secret);
  }

  /** Deleting any rows but the one that opens changes nothing. */
  lemma DeletingRows(x: VaultSeal.Crypto, w: Way, rows: map<nat, Row>, fp: string, upTo: nat, gone: set<nat>,
                     e: (nat, UnlockSlot), secret: bytes)
    requires OpensFirst(x, w, SlotsBelow(rows, fp, upTo), e, secret) && e.0 !in gone
    ensures Unlocking(x, w, SlotsBelow(rows - gone, fp, upTo)) == Recovered(secret)
  {
    SlotsBelowFacts(rows, fp, upTo);
    SlotsBelowFacts(rows - gone, fp, upTo);
    assert forall d | d in SlotsBelow(rows - gone, fp, upTo) :: d in SlotsBelow(rows, fp, upTo);
    OtherRows(x, w, rows, rows - gone, fp, upTo, upTo, e, secret);
  }

  /** Rows added later, which sort last, never change what an earlier row gave. */
  lemma AddingRows(x: VaultSeal.Crypto, w: Way, slots: seq<(nat, UnlockSlot)>, more: seq<(nat, UnlockSlot)>)
    ensures Unlocking(x, w, slots + more)
         == if Unlocking(x, w, slots) == NothingOpened then Unlocking(x, w, more) else Unlocking(x, w, slots)
  {
    SuitedConcat(w, slots, more);
    var a, b := Attempts(x, w, Suited(w, slots)), Attempts(x, w, Suited(w, more));
    assert Attempts(x, w, Suited(w, slots + more)) == a + b;
    FirstOfConcat(a, b);
  }

  lemma {:induction false} SuitedConcat(w: Way, a: seq<(nat, UnlockSlot)>, b: seq<(nat, UnlockSlot)>)
    ensures Suited(w, a + b) == Suited(w, a) + Suited(w, b)
  {
    if a == [] {
      assert a + b == b;
    } else {
      assert (a + b)[1..] == a[1..] + b;
      SuitedConcat(w, a[1..], b);
    }
  }

  // ---------------------------------------------------------------- the service

  datatype UnlockError = BadInput | NoMethod | TokenFailed(cause: TokenReply) | NoSlotOpened

  function Reported(o: Outcome): Result<bytes, UnlockError> {
    match o
    case Recovered(secret) => Ok(secret)
    case Aborted(cause) => Err(TokenFailed(cause))
    case NothingOpened => Err(NoSlotOpened)
  }

  /** GnuPG's secret keys: fingerprint to passphrase; no fingerprint is ever generated twice. */
  class Keyring {
    var keys: map<string, bytes>
    ghost var known: set<string>   // every fingerprint there ever was

    ghost predicate Valid()
      reads this
    {
      keys.Keys <= known
    }

    constructor (keys: map<string, bytes>)
      ensures this.keys == keys && known == keys.Keys
    {
      this.keys, known := keys, keys.Keys;
    }
  }

  /** Which step of an enrolment failed. */
  datatype Stage = Validation | Enrolment | Building | Generation | Storing

  /** Statement i of a transaction sequence succeeds when the function says so. */
  datatype Faults = Faults(insertOk: nat -> bool, deleteOk: nat -> bool, keyDeleteOk: bool)

  /** The random values drawn for one enrolment. */
  datatype Draws = Draws(secret: bytes, tokenNonce: bytes, salt: bytes, passNonce: bytes)

  /** The table after inserting `slots` from id `base` on. */
  function Inserted(rows: map<nat, Row>, fp: string, base: nat, slots: seq<UnlockSlot>): map<nat, Row> {
    if slots == [] then rows
    else
      var n := |slots| - 1;
      Inserted(rows, fp, base, slots[..n])[base + n := Row(fp, Some(slots[n]))]
  }

  /** The table after deleting `d` rows from id `base` on. */
  function Deleted(rows: map<nat, Row>, base: nat, d: nat): map<nat, Row> {
    if d == 0 then rows else Deleted(rows, base, d - 1) - {base + d - 1}
  }

  /** Inserting touches only the new ids, and fills each of them. */
  lemma {:induction false} InsertedFacts(rows: map<nat, Row>, fp: string, base: nat, slots: seq<UnlockSlot>)
    ensures forall id: nat :: id in Inserted(rows, fp, base, slots) <==> id in rows || base <= id < base + |slots|
    ensures forall id | id in Inserted(rows, fp, base, slots) ::
              if base <= id < base + |slots| then Inserted(rows, fp, base, slots)[id] == Row(fp, Some(slots[id - base]))
              else Inserted(rows, fp, base, slots)[id] == rows[id]
  {
    if slots != [] {
      InsertedFacts(rows, fp, base, slots[..|slots| - 1]);
    }
  }

  lemma {:induction false} DeletedFacts(rows: map<nat, Row>, base: nat, d: nat)
    ensures forall id | id in Deleted(rows, base, d) :: id in rows && Deleted(rows, base, d)[id] == rows[id]
    ensures forall id: nat :: id in Deleted(rows, base, d) <==> id in rows && !(base <= id < base + d)
  {
    if d > 0 {
      DeletedFacts(rows, base, d - 1);
    }
  }

  /** Deleting what was inserted at unused ids restores the table. */
  lemma RollbackRestores(rows: map<nat, Row>, fp: string, base: nat, slots: seq<UnlockSlot>)
    requires forall id | id in rows :: id < base
    ensures Deleted(Inserted(rows, fp, base, slots), base, |slots|) == rows
  {
    var full := Inserted(rows, fp, base, slots);
    InsertedFacts(rows, fp, base, slots);
    DeletedFacts(full, base, |slots|);
  }

  /** `_build_slots`. */
  function BuildSlots(x: VaultSeal.Crypto, draws: Draws, tokenSecret: bytes, cred: Credential, emergency: Option<bytes>,
                      params: VaultModel.KdfParams): Result<seq<UnlockSlot>, SlotError> {
    match WrapWithToken(x, draws.secret, tokenSecret, cred, draws.tokenNonce)
    case Err(e) => Err(e)
    case Ok(first) =>
      if emergency.None? then Ok([first])
      else
        match WrapWithPassphrase(x, draws.secret, emergency.value, params, draws.salt, draws.passNonce)
        case Err(e) => Err(e)
        case Ok(second) => Ok([first, second])
  }

  /** Each credential an enrolment asked for opens its own new slot to the new secret. */
  ghost predicate OpenBy(x: VaultSeal.Crypto, slots: seq<UnlockSlot>, secret: bytes, tokenSecret: bytes, emergency: Option<bytes>) {
    && |slots| == (if emergency.Some? then 2 else 1)
    && (forall i | 0 <= i < |slots| :: Holds(x, slots[i], secret))
    && slots[0].FidoSlot? && SealedUnder(x, slots[0], tokenSecret, secret) && UnwrapWithToken(x, slots[0], tokenSecret) == Ok(secret)
    && (emergency.Some? ==> slots[1].PassphraseSlot? && UnwrapWithPassphrase(x, slots[1], emergency.value) == Ok(secret))
  }

  lemma BuiltSlotsOpen(x: VaultSeal.Crypto, draws: Draws, tokenSecret: bytes, cred: Credential, emergency: Option<bytes>,
                       params: VaultModel.KdfParams, slots: seq<UnlockSlot>)
    requires VaultSeal.Ideal(x) && |draws.salt| == params.saltLen
    requires BuildSlots(x, draws, tokenSecret, cred, emergency, params) == Ok(slots)
    ensures OpenBy(x, slots, draws.secret, tokenSecret, emergency)
  {
    TokenRoundTrip(x, draws.secret, tokenSecret, cred, draws.tokenNonce, slots[0]);
    if emergency.Some? {
      PassphraseRoundTrip(x, draws.secret, emergency.value, params, draws.salt, draws.passNonce, slots[1]);
    }
  }

  /** No key makes this slot give anything but this secret; a slot that was tampered with may give nothing at all. */
  ghost predicate GivesOnly(x: VaultSeal.Crypto, s: UnlockSlot, secret: bytes) {
    forall key: bytes :: Unsealed(x, key, s.nonce, DataOf(s), s.wrapped).Ok? ==> Unsealed(x, key, s.nonce, DataOf(s), s.wrapped) == Ok(secret)
  }

  /** A row that still parses was sealed with the passphrase of its key, or gives nothing else, as long as there is that key. */
  ghost predicate RowSound(x: VaultSeal.Crypto, row: Row, keys: map<string, bytes>) {
    row.slot.Some? && row.fingerprint in keys ==>
      Holds(x, row.slot.value, keys[row.fingerprint]) || GivesOnly(x, row.slot.value, keys[row.fingerprint])
  }

  lemma HoldsGivesOnly(x: VaultSeal.Crypto, s: UnlockSlot, secret: bytes)
    requires VaultSeal.Ideal(x) && VaultSeal.KeyBound(x) && Holds(x, s, secret)
    ensures GivesOnly(x, s, secret)
  {
    var key: bytes :| SealedUnder(x, s, key, secret);
    forall tried: bytes | Unsealed(x, tried, s.nonce, DataOf(s), s.wrapped).Ok?
      ensures Unsealed(x, tried, s.nonce, DataOf(s), s.wrapped) == Ok(secret)
    {
      OpensExactly(x, s, secret, key, tried);
    }
  }

  /** What a row opens to is what some key unseals from its slot. */
  lemma OpenedBySomeKey(x: VaultSeal.Crypto, w: Way, e: (nat, UnlockSlot), secret: bytes) returns (key: bytes)
    requires Suits(w, e.1) && Try(x, w, e) == Opens(secret)
    ensures Unsealed(x, key, e.1.nonce, DataOf(e.1), e.1.wrapped) == Ok(secret)
  {
    key := match w
      case ByToken(replies) => Derived(replies(e.0)).value
      case ByPassphrase(p) => x.derive(p, e.1.kdf.salt, e.1.kdf.ToParams());
  }

  /** Every row is sound and belongs to a key that is, or was, in the keyring. */
  ghost predicate RowsSound(x: VaultSeal.Crypto, rows: map<nat, Row>, keys: map<string, bytes>, known: set<string>) {
    forall id | id in rows :: RowSound(x, rows[id], keys) && rows[id].fingerprint in known
  }

  /** The rows added for a key hold its passphrase. */
  lemma NewRowsSound(x: VaultSeal.Crypto, rows: map<nat, Row>, keys: map<string, bytes>, known: set<string>, later: map<nat, Row>,
                     fp: string, base: nat, slots: seq<UnlockSlot>)
    requires RowsSound(x, rows, keys, known) && fp in keys && fp in known
    requires forall i | 0 <= i < |slots| :: Holds(x, slots[i], keys[fp])
    requires forall id | id in later :: id in Inserted(rows, fp, base, slots) && later[id] == Inserted(rows, fp, base, slots)[id]
    ensures RowsSound(x, later, keys, known)
  {
    InsertedFacts(rows, fp, base, slots);
    forall id | id in later
      ensures RowSound(x, later[id], keys) && later[id].fingerprint in known
    {
      assert !(base <= id < base + |slots|) ==> RowSound(x, rows[id], keys);
    }
  }

  /** A new key with no rows, or a key gone, leaves the other rows sound. */
  lemma KeyringChange(x: VaultSeal.Crypto, rows: map<nat, Row>, keys: map<string, bytes>, known: set<string>, keys': map<string, bytes>, fp: string)
    requires RowsSound(x, rows, keys, known) && forall k | k in keys' && k != fp :: k in keys && keys'[k] == keys[k]
    requires fp in keys' ==> forall id | id in rows :: rows[id].fingerprint != fp
    ensures RowsSound(x, rows, keys', known + {fp})
  {
    forall id | id in rows
      ensures RowSound(x, rows[id], keys')
    {
      assert RowSound(x, rows[id], keys);
    }
  }

  /** After a new key's slots went in, all or in part, rows are sound with the key and without it. */
  lemma StoredSound(x: VaultSeal.Crypto, rows: map<nat, Row>, keys: map<string, bytes>, known: set<string>, later: map<nat, Row>,
                    fp: string, secret: bytes, base: nat, slots: seq<UnlockSlot>)
    requires RowsSound(x, rows, keys, known) && fp !in known && keys.Keys <= known
    requires forall i | 0 <= i < |slots| :: Holds(x, slots[i], secret)
    requires Extends(later, Inserted(rows, fp, base, slots))
    ensures RowsSound(x, later, keys[fp := secret], known + {fp}) && RowsSound(x, later, keys, known + {fp})
  {
    var added, wider := keys[fp := secret], known + {fp};
    KeyringChange(x, rows, keys, known, added, fp);
    NewRowsSound(x, rows, added, wider, later, fp, base, slots);
    KeyringChange(x, later, added, wider, keys, fp);
    assert wider + {fp} == wider;
  }

  /** Every one of these keys has a row that holds its passphrase. */
  ghost predicate NoneStranded(x: VaultSeal.Crypto, made: set<string>, keys: map<string, bytes>, rows: map<nat, Row>) {
    forall fp | fp in made && fp in keys :: exists id | id in rows :: Opener(x, rows[id], fp, keys[fp])
  }

  ghost predicate Opener(x: VaultSeal.Crypto, row: Row, fp: string, secret: bytes) {
    row.fingerprint == fp && row.slot.Some? && Holds(x, row.slot.value, secret)
  }

  /** Openers stay whatever was added; a new key that stays has one of its own. */
  lemma StillNoneStranded(x: VaultSeal.Crypto, made: set<string>, keys: map<string, bytes>, rows: map<nat, Row>, later: map<nat, Row>,
                          keys': map<string, bytes>, fp: string, secret: bytes)
    requires NoneStranded(x, made, keys, rows) && Extends(rows, later) && fp !in keys
    requires || keys' == keys
             || (keys' == keys[fp := secret] && exists id | id in later :: Opener(x, later[id], fp, secret))
    ensures NoneStranded(x, made + (keys'.Keys - keys.Keys), keys', later)
  {
    ExtendingKeepsOpeners(x, made, keys, rows, later);
    var grown := made + (keys'.Keys - keys.Keys);
    forall k | k in grown && k in keys'
      ensures exists id | id in later :: Opener(x, later[id], k, keys'[k])
    {
      if k in keys {
        assert k in made && keys'[k] == keys[k];
      } else {
        assert k == fp;
      }
    }
  }

  /** There is room for the slots and no insert fails. */
  predicate Storable(rows: map<nat, Row>, fp: string, slots: seq<UnlockSlot>, faults: Faults) {
    forall i | 0 <= i < |slots| :: faults.insertOk(i) && |IdsOf(rows, fp)| + i < MAX_KEY_UNLOCK_SLOTS
  }

  class KeyUnlockService {
    const x: VaultSeal.Crypto
    const params: VaultModel.KdfParams
    const gpg: Keyring
    const store: MetadataStore

    constructor (x: VaultSeal.Crypto, params: VaultModel.KdfParams, gpg: Keyring, store: MetadataStore)
      ensures this.x == x && this.params == params && this.gpg == gpg && this.store == store
      ensures gpg.Valid() && store.rows == map[] ==> Sound()
    {
      this.x, this.params, this.gpg, this.store := x, params, gpg, store;
    }

    /** What every enrolment and deletion keeps: each stored slot holds the passphrase of its key, or gives nothing else. */
    ghost predicate Sound()
      reads gpg, store
    {
      gpg.Valid() && RowsSound(x, store.rows, gpg.keys, gpg.known)
    }

    /** The inserts of `_persist`, up to the first that fails. */
    method Insert(fp: string, slots: seq<UnlockSlot>, faults: Faults) returns (stored: nat)
      requires store.Valid() && VaultModel.IsFingerprint(fp)
      modifies store
      ensures store.Valid() && stored <= |slots|
      ensures store.rows == Inserted(old(store.rows), fp, old(store.nextId), slots[..stored])
      ensures stored == |slots| <==> Storable(old(store.rows), fp, slots, faults)
    {
      VaultModel.NormalForm(fp);
      stored := 0;
      ghost var count := |IdsOf(store.rows, fp)|;
      while stored < |slots|
        invariant store.Valid() && stored <= |slots| && store.nextId == old(store.nextId) + stored
        invariant store.rows == Inserted(old(store.rows), fp, old(store.nextId), slots[..stored])
        invariant |IdsOf(store.rows, fp)| == count + stored
        invariant forall i | 0 <= i < stored :: faults.insertOk(i) && count + i < MAX_KEY_UNLOCK_SLOTS
      {
        ghost var done := slots[..stored + 1];
        var r := store.AddUnlockSlot(fp, slots[stored], faults.insertOk(stored));
        if r.Err? {
          return;
        }
        assert done[..stored] == slots[..stored];
        stored := stored + 1;
      }
    }

    /** The deletes of its exception handler, up to the first that fails. */
    method Undo(base: nat, stored: nat, faults: Faults) returns (d: nat)
      requires store.Valid()
      modifies store`rows
      ensures store.Valid() && d <= stored && (d == stored || !faults.deleteOk(d))
      ensures store.rows == Deleted(old(store.rows), base, d)
    {
      d := 0;
      while d < stored
        invariant store.Valid() && d <= stored
        invariant store.rows == Deleted(old(store.rows), base, d)
      {
        var ok := store.DeleteUnlockSlot(base + d, faults.deleteOk(d));
        if !ok {
          return;
        }
        d := d + 1;
      }
    }

    /** `_persist`: all the slots, or none unless a rollback delete fails too. */
    method Persist(fp: string, slots: seq<UnlockSlot>, faults: Faults) returns (ok: bool)
      requires store.Valid() && VaultModel.IsFingerprint(fp)
      modifies store
      ensures store.Valid() && Extends(old(store.rows), store.rows)
      ensures Extends(store.rows, Inserted(old(store.rows), fp, old(store.nextId), slots))
      ensures ok <==> Storable(old(store.rows), fp, slots, faults)
      ensures ok ==> store.rows == Inserted(old(store.rows), fp, old(store.nextId), slots)
      ensures !ok && (forall i :: faults.deleteOk(i)) ==> store.rows == old(store.rows)
    {
      ghost var before := store.rows;
      var base := store.nextId;
      var stored := Insert(fp, slots, faults);
      InsertedFacts(before, fp, base, slots[..stored]);
      InsertedFacts(before, fp, base, slots);
      ok := stored == |slots|;
      if ok {
        assert slots[..stored] == slots;
      } else {
        DeletedFacts(store.rows, base, stored);
        var undone := Undo(base, stored, faults);
        DeletedFacts(Inserted(before, fp, base, slots[..stored]), base, undone);
        RollbackRestores(before, fp, base, slots[..stored]);
      }
    }

    /**
     `create_key_with_token`.  The inputs say what the validators, the token and
     GnuPG's key generation answer.
     */
    method CreateKeyWithToken(validated: bool, enrolled: Option<(Credential, bytes)>, emergency: Option<bytes>, draws: Draws,
                              generated: Option<string>, faults: Faults, ghost made: set<string>)
      returns (r: Result<string, Stage>)
      requires store.Valid() && gpg.Valid() && VaultSeal.Ideal(x) && |draws.salt| == params.saltLen
      requires generated.Some? ==> VaultModel.IsFingerprint(generated.value) && generated.value !in gpg.known
      modifies store, gpg
      ensures gpg.Valid() && (old(Sound()) ==> Sound())
      ensures store.Valid() && Extends(old(store.rows), store.rows)
      ensures r.Ok? <==>
              && validated && enrolled.Some? && generated.Some?
              && var built := BuildSlots(x, draws, enrolled.value.1, enrolled.value.0, emergency, params);
                 built.Ok? && Storable(old(store.rows), generated.value, built.value, faults)
      ensures r.Ok? ==>
                && validated && enrolled.Some? && generated == Some(r.value)
                && gpg.keys == old(gpg.keys)[r.value := draws.secret]
                && exists slots :: && OpenBy(x, slots, draws.secret, enrolled.value.1, emergency)
                                   && store.rows == Inserted(old(store.rows), r.value, old(store.nextId), slots)
      ensures !validated ==> r == Err(Validation)
      ensures validated && enrolled.None? ==> r == Err(Enrolment)
      ensures validated && enrolled.Some? ==>
                var built := BuildSlots(x, draws, enrolled.value.1, enrolled.value.0, emergency, params);
                && (built.Err? <==> r == Err(Building))
                && (built.Ok? ==> (generated.None? <==> r == Err(Generation)))
      ensures r.Err? && r.error != Storing ==> gpg.keys == old(gpg.keys) && store.rows == old(store.rows)
      ensures r == Err(Storing) ==>
                && generated.Some?
                && gpg.keys == (if faults.keyDeleteOk then old(gpg.keys) else old(gpg.keys)[generated.value := draws.secret])
                && ((forall i :: faults.deleteOk(i)) ==> store.rows == old(store.rows))
      ensures NoneStranded(x, made, old(gpg.keys), old(store.rows)) && (r == Err(Storing) ==> faults.keyDeleteOk) ==>
                NoneStranded(x, made + (gpg.keys.Keys - old(gpg.keys).Keys), gpg.keys, store.rows)
    {
      if !validated {
        return Err(Validation);
      }
      if enrolled.None? {
        return Err(Enrolment);
      }
      var (cred, tokenSecret) := enrolled.value;
      var built := BuildSlots(x, draws, tokenSecret, cred, emergency, params);
      if built.Err? {
        return Err(Building);
      }
      BuiltSlotsOpen(x, draws, tokenSecret, cred, emergency, params, built.value);
      if generated.None? {
        return Err(Generation);
      }
      var ok := StoreNewKey(generated.value, draws.secret, built.value, faults, made);
      r := if ok then Ok(generated.value) else Err(Storing);
    }

    /** Lines 173-201: the key exists once `generate_key` returns; it goes again if its slots cannot be stored. */
    method StoreNewKey(fp: string, secret: bytes, slots: seq<UnlockSlot>, faults: Faults, ghost made: set<string>) returns (ok: bool)
      requires store.Valid() && gpg.Valid() && VaultModel.IsFingerprint(fp) && fp !in gpg.known
      requires slots != [] && forall i | 0 <= i < |slots| :: Holds(x, slots[i], secret)
      modifies store, gpg
      ensures gpg.Valid() && (old(Sound()) ==> Sound())
      ensures store.Valid() && Extends(old(store.rows), store.rows)
      ensures ok <==> Storable(old(store.rows), fp, slots, faults)
      ensures ok ==> store.rows == Inserted(old(store.rows), fp, old(store.nextId), slots)
      ensures !ok && (forall i :: faults.deleteOk(i)) ==> store.rows == old(store.rows)
      ensures gpg.keys == if ok || !faults.keyDeleteOk then old(gpg.keys)[fp := secret] else old(gpg.keys)
      ensures NoneStranded(x, made, old(gpg.keys), old(store.rows)) && (ok || faults.keyDeleteOk) ==>
                NoneStranded(x, made + (gpg.keys.Keys - old(gpg.keys).Keys), gpg.keys, store.rows)
    {
      ghost var keys, rows, base, known := gpg.keys, store.rows, store.nextId, gpg.known;
      gpg.keys, gpg.known := gpg.keys[fp := secret], gpg.known + {fp};
      ok := Persist(fp, slots, faults);
      if RowsSound(x, rows, keys, known) {
        StoredSound(x, rows, keys, known, store.rows, fp, secret, base, slots);
      }
      if !ok && faults.keyDeleteOk {
        gpg.keys := gpg.keys - {fp};
        assert gpg.keys == keys;
      }
      if ok {
        InsertedFacts(rows, fp, base, slots);
        assert Opener(x, store.rows[base], fp, secret);
      }
      if NoneStranded(x, made, keys, rows) && (ok || faults.keyDeleteOk) {
        StillNoneStranded(x, made, keys, rows, store.rows, gpg.keys, fp, secret);
      }
    }

    /** `bind_existing_key`: the keyring is only read. */
    method BindExistingKey(fingerprint: string, passphrase: bytes, signOk: bool, enrolled: Option<(Credential, bytes)>,
                           nonce: bytes, faults: Faults) returns (r: Result<(), Stage>)
      requires store.Valid() && VaultSeal.Ideal(x)
      modifies store
      ensures old(Sound()) ==> Sound()
      ensures store.Valid() && Extends(old(store.rows), store.rows)
      ensures var normal := VaultModel.NormaliseFingerprint(fingerprint);
              r.Ok? <==>
              && normal.Some? && SecretOk(passphrase) && signOk && enrolled.Some?
              && normal.value in gpg.keys && gpg.keys[normal.value] == passphrase
              && var slot := WrapWithToken(x, passphrase, enrolled.value.1, enrolled.value.0, nonce);
                 slot.Ok? && Storable(old(store.rows), normal.value, [slot.value], faults)
      ensures r.Ok? ==>
                && VaultModel.NormaliseFingerprint(fingerprint).Some? && enrolled.Some?
                && var fp := VaultModel.NormaliseFingerprint(fingerprint).value;
                && fp in gpg.keys && gpg.keys[fp] == passphrase
                && exists slot :: && OpenBy(x, [slot], passphrase, enrolled.value.1, None)
                                  && store.rows == Inserted(old(store.rows), fp, old(store.nextId), [slot])
      ensures r.Err? && (r.error == Storing ==> forall i :: faults.deleteOk(i)) ==> store.rows == old(store.rows)
    {
      var normal := VaultModel.NormaliseFingerprint(fingerprint);
      if normal.None? || !SecretOk(passphrase) {
        return Err(Validation);
      }
      var fp := normal.value;
      var signed := signOk && fp in gpg.keys && gpg.keys[fp] == passphrase;
      if !signed {
        return Err(Validation);
      }
      if enrolled.None? {
        return Err(Enrolment);
      }
      var (cred, tokenSecret) := enrolled.value;
      var wrapped := WrapWithToken(x, passphrase, tokenSecret, cred, nonce);
      if wrapped.Err? {
        return Err(Building);
      }
      TokenRoundTrip(x, passphrase, tokenSecret, cred, nonce, wrapped.value);
      assert OpenBy(x, [wrapped.value], passphrase, tokenSecret, None);
      ghost var rows, base := store.rows, store.nextId;
      var ok := Persist(fp, [wrapped.value], faults);
      if old(Sound()) {
        NewRowsSound(x, rows, gpg.keys, gpg.known, store.rows, fp, base, [wrapped.value]);
      }
      r := if ok then Ok(()) else Err(Storing);
    }

    /** `forget_key`. */
    method ForgetKey(fingerprint: string, dbOk: bool) returns (ok: bool)
      requires store.Valid()
      modifies store`rows
      ensures store.Valid() && (old(Sound()) ==> Sound())
      ensures var normal := VaultModel.NormaliseFingerprint(fingerprint);
              && ok == (normal.Some? && dbOk)
              && store.rows == if ok then old(store.rows) - IdsOf(old(store.rows), normal.value) else old(store.rows)
    {
      ok := store.DeleteUnlockSlots(fingerprint, dbOk);
      assert forall id | id in store.rows :: id in old(store.rows) && store.rows[id] == old(store.rows[id]);
    }

    /**
     In any table that enrolments and deletions lead to, whatever is recovered for
     a key, by whichever token or passphrase, is the passphrase that opens it.
     */
    lemma UnlockGivesThePassphrase(w: Way, fp: string)
      requires Sound() && VaultSeal.Ideal(x) && VaultSeal.KeyBound(x) && fp in gpg.keys
      ensures var o := Unlocking(x, w, SlotsBelow(store.rows, fp, store.nextId));
              o.Recovered? ==> o == Recovered(gpg.keys[fp])
    {
      var slots := SlotsBelow(store.rows, fp, store.nextId);
      var o := Unlocking(x, w, slots);
      if o.Recovered? {
        SlotsBelowFacts(store.rows, fp, store.nextId);
        var e := RecoveredFrom(x, w, slots, o.secret);
        assert RowSound(x, store.rows[e.0], gpg.keys);
        if Holds(x, e.1, gpg.keys[fp]) {
          HoldsGivesOnly(x, e.1, gpg.keys[fp]);
        }
        var key := OpenedBySomeKey(x, w, e, o.secret);
      }
    }

    /**
     From enrolment to unlock: the token a slot was built for recovers the key's
     passphrase, in any such table, unless a row before it meets a fatal error.
     */
    lemma EnrolledTokenUnlocks(fp: string, id: nat, slot: UnlockSlot, tokenSecret: bytes, replies: nat -> TokenReply)
      requires Sound() && VaultSeal.Ideal(x) && VaultSeal.KeyBound(x) && fp in gpg.keys
      requires id in store.rows && id < store.nextId && store.rows[id] == Row(fp, Some(slot))
      requires slot.FidoSlot? && SealedUnder(x, slot, tokenSecret, gpg.keys[fp]) && replies(id) == Prf(Some(tokenSecret))
      requires forall d | d in store.rows && d < id && store.rows[d].fingerprint == fp :: !Fatal(replies(d))
      ensures Unlocking(x, ByToken(replies), SlotsBelow(store.rows, fp, store.nextId)) == Recovered(gpg.keys[fp])
    {
      var w, slots, e := ByToken(replies), SlotsBelow(store.rows, fp, store.nextId), (id, slot);
      SlotsBelowFacts(store.rows, fp, store.nextId);
      RowGivesItsSecret(x, w, e, gpg.keys[fp], tokenSecret);
      assert e in slots;
      assert forall d | d in slots :: store.rows[d.0].fingerprint == fp;
      assert Reachable(x, w, slots, e);
      SucceedsIff(x, w, store.rows, fp, store.nextId);
      UnlockGivesThePassphrase(w, fp);
    }

    /** `unlock_with_token`; `asked` lists the rows whose binding the token was asked for. */
    method UnlockWithToken(fingerprint: string, replies: nat -> TokenReply) returns (r: Result<bytes, UnlockError>, asked: seq<nat>)
      requires store.Valid()
      ensures var normal := VaultModel.NormaliseFingerprint(fingerprint);
              if normal.None? then r == Err(BadInput)
              else
                var slots := SlotsBelow(store.rows, normal.value, store.nextId);
                r == if Suited(ByToken(replies), slots) == [] then Err(NoMethod) else Reported(Unlocking(x, ByToken(replies), slots))
      ensures Sound() && VaultSeal.Ideal(x) && VaultSeal.KeyBound(x) && r.Ok? ==>
                var fp := VaultModel.NormaliseFingerprint(fingerprint).value; fp in gpg.keys ==> r == Ok(gpg.keys[fp])
      ensures asked != [] ==>
                && var normal := VaultModel.NormaliseFingerprint(fingerprint);
                && normal.Some?
                && var tried := Suited(ByToken(replies), SlotsBelow(store.rows, normal.value, store.nextId));
                   |asked| <= |tried| && forall i | 0 <= i < |asked| :: asked[i] == tried[i].0
      ensures forall i | 0 <= i < |asked| - 1 :: !Fatal(replies(asked[i]))
      ensures r.Err? && r.error.TokenFailed? <==> asked != [] && Fatal(replies(asked[|asked| - 1]))
    {
      asked := [];
      var listed := store.UnlockSlotsOf(fingerprint);
      if listed.Err? {
        return Err(BadInput), [];
      }
      ghost var fp := VaultModel.NormaliseFingerprint(fingerprint).value;
      if Sound() && VaultSeal.Ideal(x) && VaultSeal.KeyBound(x) && fp in gpg.keys {
        UnlockGivesThePassphrase(ByToken(replies), fp);
      }
      var tried := Suited(ByToken(replies), listed.value);
      if tried == [] {
        return Err(NoMethod), [];
      }
      var outcome;
      outcome, asked := AskInTurn(tried, replies);
      r := Reported(outcome);
    }

    /** Its loop. */
    method AskInTurn(tried: seq<(nat, UnlockSlot)>, replies: nat -> TokenReply) returns (o: Outcome, asked: seq<nat>)
      requires forall i | 0 <= i < |tried| :: Suits(ByToken(replies), tried[i].1)
      ensures o == FirstOf(Attempts(x, ByToken(replies), tried))
      ensures |asked| <= |tried| && forall i | 0 <= i < |asked| :: asked[i] == tried[i].0
      ensures forall i | 0 <= i < |asked| - 1 :: !Fatal(replies(asked[i]))
      ensures o.Aborted? <==> asked != [] && Fatal(replies(asked[|asked| - 1]))
    {
      asked := [];
      ghost var attempts := Attempts(x, ByToken(replies), tried);
      assert attempts[0..] == attempts;
      for i := 0 to |tried|
        invariant |asked| == i
        invariant FirstOf(attempts) == FirstOf(attempts[i..])
        invariant forall k | 0 <= k < i :: asked[k] == tried[k].0 && !Fatal(replies(asked[k]))
      {
        asked := asked + [tried[i].0];
        FirstOfNext(attempts, i);
        var attempt := Try(x, ByToken(replies), tried[i]);
        match attempt
        case Opens(secret) => return Recovered(secret), asked;
        case Stops(cause) => return Aborted(cause), asked;
        case Skips =>
      }
      o := NothingOpened;
    }

    /** `unlock_with_passphrase`. */
    method UnlockWithPassphrase(fingerprint: string, passphrase: bytes) returns (r: Result<bytes, UnlockError>)
      requires store.Valid()
      ensures var normal := VaultModel.NormaliseFingerprint(fingerprint);
              if normal.None? then r == Err(BadInput)
              else
                var slots := SlotsBelow(store.rows, normal.value, store.nextId);
                r == if Suited(ByPassphrase(passphrase), slots) == [] then Err(NoMethod)
                     else Reported(Unlocking(x, ByPassphrase(passphrase), slots))
      ensures Sound() && VaultSeal.Ideal(x) && VaultSeal.KeyBound(x) && r.Ok? ==>
                var fp := VaultModel.NormaliseFingerprint(fingerprint).value; fp in gpg.keys ==> r == Ok(gpg.keys[fp])
    {
      var listed := store.UnlockSlotsOf(fingerprint);
      if listed.Err? {
        return Err(BadInput);
      }
      ghost var fp := VaultModel.NormaliseFingerprint(fingerprint).value;
      if Sound() && VaultSeal.Ideal(x) && VaultSeal.KeyBound(x) && fp in gpg.keys {
        UnlockGivesThePassphrase(ByPassphrase(passphrase), fp);
      }
      var tried := Suited(ByPassphrase(passphrase), listed.value);
      if tried == [] {
        return Err(NoMethod);
      }
      var outcome := TryInTurn(tried, passphrase);
      r := Reported(outcome);
    }

    /** Its loop. */
    method TryInTurn(tried: seq<(nat, UnlockSlot)>, passphrase: bytes) returns (o: Outcome)
      requires forall i | 0 <= i < |tried| :: Suits(ByPassphrase(passphrase), tried[i].1)
      ensures o == FirstOf(Attempts(x, ByPassphrase(passphrase), tried))
    {
      ghost var attempts := Attempts(x, ByPassphrase(passphrase), tried);
      assert attempts[0..] == attempts;
      for i := 0 to |tried|
        invariant FirstOf(attempts) == FirstOf(attempts[i..])
      {
        FirstOfNext(attempts, i);
        var got := UnwrapWithPassphrase(x, tried[i].1, passphrase);
        if got.Ok? {
          return Recovered(got.value);
        }
      }
      o := NothingOpened;
    }
  }

  /** Nothing in the table was lost or altered. */
  ghost predicate Extends(before: map<nat, Row>, after: map<nat, Row>) {
    forall id | id in before :: id in after && after[id] == before[id]
  }

  /** A key stays openable whatever is added to the table later. */
  lemma ExtendingKeepsOpeners(x: VaultSeal.Crypto, made: set<string>, keys: map<string, bytes>, rows: map<nat, Row>, later: map<nat, Row>)
    requires NoneStranded(x, made, keys, rows) && Extends(rows, later)
    ensures NoneStranded(x, made, keys, later)
  {
    forall fp | fp in made && fp in keys
      ensures exists id | id in later :: Opener(x, later[id], fp, keys[fp])
    {
      var id :| id in rows && Opener(x, rows[id], fp, keys[fp]);
      assert Opener(x, later[id], fp, keys[fp]);
    }
  }
}
