/** The key_unlock_slot table of storage/metadata_store.py. */
module UnlockStore {
  import opened Wrappers
  import VaultModel
  import opened UnlockSlots

  const MAX_KEY_UNLOCK_SLOTS := 8

  /** One row; the slot is None when its JSON no longer parses. */
  datatype Row = Row(fingerprint: string, slot: Option<UnlockSlot>)

  datatype StoreError = BadFingerprint | TooManySlots | Database

  function IdsOf(rows: map<nat, Row>, fp: string): set<nat> { set id | id in rows && rows[id].fingerprint == fp }

  /** The parsable slots of a key with ids below `upTo`, in id order. */
  function SlotsBelow(rows: map<nat, Row>, fp: string, upTo: nat): seq<(nat, UnlockSlot)> {
    if upTo == 0 then []
    else
      var id := upTo - 1;
      SlotsBelow(rows, fp, id)
      + (if id in rows && rows[id].fingerprint == fp && rows[id].slot.Some? then [(id, rows[id].slot.value)] else [])
  }

  class MetadataStore {
    var rows: map<nat, Row>
    var nextId: nat          // AUTOINCREMENT: ids are never used again

    predicate Valid()
      reads this
    {
      && (forall id | id in rows :: id < nextId)
      && (forall id | id in rows :: |IdsOf(rows, rows[id].fingerprint)| <= MAX_KEY_UNLOCK_SLOTS)
    }

    constructor ()
      ensures Valid() && rows == map[]
    {
      rows, nextId := map[], 0;
    }

    /** No key ever has more than eight rows. */
    lemma WithinCap(fp: string)
      requires Valid()
      ensures |IdsOf(rows, fp)| <= MAX_KEY_UNLOCK_SLOTS
    {
      if id :| id in IdsOf(rows, fp) {
        assert rows[id].fingerprint == fp;
      }
    }

    /** `add_unlock_slot`; `dbOk` is false when the INSERT raises. */
    method AddUnlockSlot(fingerprint: string, slot: UnlockSlot, dbOk: bool) returns (r: Result<nat, StoreError>)
      requires Valid()
      modifies this
      ensures Valid()
      ensures r.Ok? <==> VaultModel.NormaliseFingerprint(fingerprint).Some? && dbOk
                         && |IdsOf(old(rows), VaultModel.NormaliseFingerprint(fingerprint).value)| < MAX_KEY_UNLOCK_SLOTS
      ensures r.Ok? ==>
                && r.value == old(nextId) && nextId == old(nextId) + 1
                && rows == old(rows)[r.value := Row(VaultModel.NormaliseFingerprint(fingerprint).value, Some(slot))]
      ensures r.Ok? ==>
                var fpr := VaultModel.NormaliseFingerprint(fingerprint).value; |IdsOf(rows, fpr)| == |IdsOf(old(rows), fpr)| + 1
      ensures r.Err? ==> rows == old(rows) && nextId == old(nextId)
      ensures r == Err(BadFingerprint) <==> VaultModel.NormaliseFingerprint(fingerprint).None?
      ensures r == Err(Database) ==> !dbOk
    {
      var normal := VaultModel.NormaliseFingerprint(fingerprint);
      if normal.None? {
        return Err(BadFingerprint);
      }
      var fpr := normal.value;
      if |IdsOf(rows, fpr)| >= MAX_KEY_UNLOCK_SLOTS {
        return Err(TooManySlots);
      }
      if !dbOk {
        return Err(Database);
      }
      var id := nextId;
      InsertCounts(rows, id, Row(fpr, Some(slot)));
      rows, nextId := rows[id := Row(fpr, Some(slot))], nextId + 1;
      r := Ok(id);
    }

    /** `unlock_slots`. */
    method UnlockSlotsOf(fingerprint: string) returns (r: Result<seq<(nat, UnlockSlot)>, StoreError>)
      requires Valid()
      ensures r == match VaultModel.NormaliseFingerprint(fingerprint) case None => Err(BadFingerprint) case Some(fp) => Ok(SlotsBelow(rows, fp, nextId))
    {
      var slots := [];
      var normal := VaultModel.NormaliseFingerprint(fingerprint);
      if normal.None? {
        return Err(BadFingerprint);
      }
      for id := 0 to nextId
        invariant slots == SlotsBelow(rows, normal.value, id)
      {
        if id in rows && rows[id].fingerprint == normal.value && rows[id].slot.Some? {
          slots := slots + [(id, rows[id].slot.value)];
        }
      }
      r := Ok(slots);
    }

    /** `delete_unlock_slot`. */
    method DeleteUnlockSlot(id: nat, dbOk: bool) returns (ok: bool)
      requires Valid()
      modifies this`rows
      ensures Valid() && ok == dbOk && rows == if dbOk then old(rows) - {id} else old(rows)
    {
      if dbOk {
        DeleteCounts(rows, {id});
        rows := rows - {id};
      }
      ok := dbOk;
    }

    /** `delete_unlock_slots`. */
    method DeleteUnlockSlots(fingerprint: string, dbOk: bool) returns (ok: bool)
      requires Valid()
      modifies this`rows
      ensures Valid()
      ensures var normal := VaultModel.NormaliseFingerprint(fingerprint);
              && ok == (normal.Some? && dbOk)
              && rows == if ok then old(rows) - IdsOf(old(rows), normal.value) else old(rows)
    {
      var normal := VaultModel.NormaliseFingerprint(fingerprint);
      ok := normal.Some? && dbOk;
      if ok {
        DeleteCounts(rows, IdsOf(rows, normal.value));
        rows := rows - IdsOf(rows, normal.value);
      }
    }
  }

  lemma InsertCounts(rows: map<nat, Row>, id: nat, row: Row)
    requires id !in rows
    ensures forall fp :: |IdsOf(rows[id := row], fp)| == |IdsOf(rows, fp)| + if fp == row.fingerprint then 1 else 0
  {
    forall fp
      ensures |IdsOf(rows[id := row], fp)| == |IdsOf(rows, fp)| + if fp == row.fingerprint then 1 else 0
    {
      assert IdsOf(rows[id := row], fp) == IdsOf(rows, fp) + if fp == row.fingerprint then {id} else {};
    }
  }

  lemma DeleteCounts(rows: map<nat, Row>, gone: set<nat>)
    ensures forall fp :: |IdsOf(rows - gone, fp)| <= |IdsOf(rows, fp)|
  {
    forall fp
      ensures |IdsOf(rows - gone, fp)| <= |IdsOf(rows, fp)|
    {
      SubsetSize(IdsOf(rows - gone, fp), IdsOf(rows, fp));
    }
  }

  /** `unlock_slots` lists exactly the parsable rows of the key, in id order. */
  lemma {:induction false} SlotsBelowFacts(rows: map<nat, Row>, fp: string, upTo: nat)
    ensures forall i, j | 0 <= i < j < |SlotsBelow(rows, fp, upTo)| :: SlotsBelow(rows, fp, upTo)[i].0 < SlotsBelow(rows, fp, upTo)[j].0
    ensures forall e: (nat, UnlockSlot) :: e in SlotsBelow(rows, fp, upTo)
                                           <==> e.0 < upTo && e.0 in rows && rows[e.0] == Row(fp, Some(e.1))
  {
    if upTo > 0 {
      SlotsBelowFacts(rows, fp, upTo - 1);
      var before, id := SlotsBelow(rows, fp, upTo - 1), upTo - 1;
      assert forall i | 0 <= i < |before| :: before[i] in before;
      if id in rows && rows[id].fingerprint == fp && rows[id].slot.Some? {
        assert rows[id] == Row(fp, Some(rows[id].slot.value));
      }
    }
  }
}
