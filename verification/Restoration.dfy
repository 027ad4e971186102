/** Restoring backups: every run of calls, interrupted commits and restores of any earlier committed
state, and what replaying the journal onto such a state gives back. */
module Restoration {
  import opened Types
  import opened Rotations
  import opened Database
  import opened Invariant
  import opened Recovery

  // ------------------------------------------------------------ one record, two states

  /** The token belongs to the vault a record names. */
  ghost predicate Of(db: Db, t: TokenId, id: VaultId) {
    t in db.tokens && Named(db, db.tokens[t].vaultPk, id)
  }

  /** What replaying a revocation means: the named vault loses the listed tokens, and no key changes. */
  lemma ReplayedRevocation(db: Db, record: JournalRecord)
    requires Inv(db) && Admissible(db, record) && record.op.Revocation?
    ensures var db' := Replay(db, record).db;
            && db'.vaults.Keys == db.vaults.Keys
            && (forall pk :: pk in db.vaults ==> SameKeys(db'.vaults[pk], db.vaults[pk]))
            && (forall t :: t in db'.tokens <==>
                  t in db.tokens && !(t in record.op.tokenIds && Of(db, t, record.op.vaultId)))
            && (forall t :: t in db'.tokens ==> db'.tokens[t] == db.tokens[t])
  {
    hide Inv, LoadById, AppendAll, SameKeys, RevokeEvents;
    var id, ids := record.op.vaultId, record.op.tokenIds;
    assert forall v: Vault :: SameKeys(v, v) by { SameKeysReflexive(); }
    LoadByIdOk(db, 0, id);
    forall t | t in db.tokens {
      LoadByIdOk(db, db.tokens[t].vaultPk, id);
    }
    if LoadById(db, id).Some? {
      var pk := LoadById(db, id).value;
      var removed := Removed(db.tokens, pk, ids);
      RevokedInv(db, pk, removed, record.op.actor, record.op.reported, record.ts);
      RevokedKeys(db, pk, removed, record.op.actor, record.op.reported, record.ts);
    }
  }

  lemma RevokedKeys(db: Db, pk: nat, removed: seq<TokenId>, actor: Actor, reported: bool, now: int)
    requires pk in db.vaults
    ensures var r := Revoked(db, pk, db.vaults[pk], removed, actor, reported, now);
            r.Ok? ==>
              && r.value.vaults.Keys == db.vaults.Keys
              && (forall qk :: qk in db.vaults ==> SameKeys(r.value.vaults[qk], db.vaults[qk]))
              && r.value.tokens == Without(db.tokens, removed)
  {
    hide AppendAll, RevokeEvents;
    var v := db.vaults[pk];
    AppendAllSameKeys(v.(revision := v.revision + 1), RevokeEvents(removed, actor, reported), now);
  }

  /** What a rotation makes of a vault's keys. */
  ghost predicate KeysRotated(v: Vault, v': Vault, r: RotationRequest) {
    && v'.id == v.id && v'.ownerSignPub == v.ownerSignPub && v'.ownerBoxPub == v.ownerBoxPub
    && v'.createdAt == v.createdAt
    && v'.generation == r.fromGeneration + 1
    && v'.descriptors == v.descriptors[r.fromGeneration + 1 := r.descriptor]
    && v'.ownerBundle == r.ownerBundle
  }

  lemma RotatedVaultKeys(v: Vault, r: RotationRequest, actor: Actor, events: seq<AuditEvent>, now: int)
    requires DescriptorsOk(v) && v.generation == r.fromGeneration
    ensures var v' := AppendAll(RotatedVault(v, r, actor), events, now); v'.Ok? ==> KeysRotated(v, v'.value, r)
  {
    hide AppendAll, Rebuilt, BatchBytes;
    AppendAllSameKeys(RotatedVault(v, r, actor), events, now);
  }

  lemma RotatedKeys(db: Db, pk: nat, r: RotationRequest, ctx: Ctx)
    requires Inv(db) && Applicable(db, pk, r)
    ensures Rotated(db, pk, db.vaults[pk], r, ctx).Ok?
    ensures var db' := Rotated(db, pk, db.vaults[pk], r, ctx).value;
            && db'.vaults.Keys == db.vaults.Keys
            && KeysRotated(db.vaults[pk], db'.vaults[pk], r)
            && (forall qk :: qk in db.vaults && qk != pk ==> db'.vaults[qk] == db.vaults[qk])
            && db'.tokens == Resealed(Without(db.tokens, Removed(db.tokens, pk, r.revoke)), pk,
                                      r.fromGeneration + 1, r.tokens)
  {
    hide Inv, ChainOk, RecordsOk, DescriptorsOk, AppendAll, Resealed, Removed, RotatedVault, Separated, Positive,
         KeysRotated, RotationEvents, Without;
    RotatedInv(db, pk, r, ctx);
    VaultIsOk(db, pk);
    RotatedVaultKeys(db.vaults[pk], r, ctx.actor, RotationEvents(r, Removed(db.tokens, pk, r.revoke), ctx.actor),
        ctx.now);
  }

  /** A token's resealed row depends on its own row only. */
  lemma {:induction false} ResealedLocally(
    tokens: map<TokenId, TokenRow>, others: map<TokenId, TokenRow>, pk: nat, g: nat,
    list: seq<ResealedBundle>, t: TokenId)
    requires t in tokens && t in others && tokens[t] == others[t]
    ensures t in Resealed(tokens, pk, g, list) && t in Resealed(others, pk, g, list)
    ensures Resealed(tokens, pk, g, list)[t] == Resealed(others, pk, g, list)[t]
    decreases |list|
  {
    if list != [] {
      ResealedLocally(tokens, others, pk, g, list[..|list| - 1], t);
      ResealedAt(tokens, pk, g, list[..|list| - 1], t);
    }
  }

  lemma VaultNamedOnce(db: Db, pk: nat, qk: nat, id: VaultId)
    requires Inv(db) && Named(db, pk, id) && Named(db, qk, id)
    ensures pk == qk
  {
    hide VaultOk, TokensOk;
  }

  lemma TokenVaultKnown(db: Db, t: TokenId)
    requires Inv(db) && t in db.tokens
    ensures db.tokens[t].vaultPk in db.vaults
  {
    hide VaultOk;
    assert TokenOk(db, t);
  }

  // ------------------------------------------------------------ remnants stay remnants

  lemma SameNames(a: Db, b: Db, pk: nat, id: VaultId)
    requires Remnant(a, b) && pk in b.vaults
    ensures Named(a, pk, id) <==> Named(b, pk, id)
  {
  }

  /** What the live state admits, every remnant of it admits. */
  lemma RemnantAdmits(a: Db, b: Db, record: JournalRecord)
    requires Remnant(a, b) && Admissible(a, record)
    ensures Admissible(b, record)
  {
    hide Separated, Positive, ResealedIds;
    if record.op.Rotation? {
      forall pk | Named(b, pk, record.op.vaultId)
        ensures Applicable(b, pk, record.op.request)
      {
        assert Named(a, pk, record.op.vaultId);
      }
    }
  }

  lemma RevocationCarries(a: Db, b: Db, record: JournalRecord)
    requires Inv(a) && Inv(b) && Remnant(a, b) && Admissible(a, record) && Admissible(b, record)
    requires record.op.Revocation?
    ensures Remnant(Replay(a, record).db, Replay(b, record).db)
  {
    hide Inv, Replay, Admissible, Named;
    ReplayedRevocation(a, record);
    ReplayedRevocation(b, record);
    ReplayInv(a, record);
    ReplayInv(b, record);
    var b' := Replay(b, record).db;
    forall t | t in b'.tokens
      ensures t in Replay(a, record).db.tokens
    {
      TokenVaultKnown(b, t);
      SameNames(a, b, b.tokens[t].vaultPk, record.op.vaultId);
    }
  }

  /** Rotating the vault both states have leaves one the remnant of the other. */
  lemma RotatedCarries(a: Db, b: Db, pk: nat, r: RotationRequest, ctx: Ctx)
    requires Inv(a) && Inv(b) && Remnant(a, b)
    requires Applicable(a, pk, r) && Applicable(b, pk, r)
    ensures Rotated(a, pk, a.vaults[pk], r, ctx).Ok? && Rotated(b, pk, b.vaults[pk], r, ctx).Ok?
    ensures Remnant(Rotated(a, pk, a.vaults[pk], r, ctx).value, Rotated(b, pk, b.vaults[pk], r, ctx).value)
  {
    hide Inv, Rotated, Resealed, Applicable;
    RotatedKeys(a, pk, r, ctx);
    RotatedKeys(b, pk, r, ctx);
    var left, right := Without(a.tokens, Removed(a.tokens, pk, r.revoke)),
        Without(b.tokens, Removed(b.tokens, pk, r.revoke));
    var g := r.fromGeneration + 1;
    forall t | t in Resealed(right, pk, g, r.tokens)
      ensures t in Resealed(left, pk, g, r.tokens)
      ensures Resealed(left, pk, g, r.tokens)[t] == Resealed(right, pk, g, r.tokens)[t]
    {
      ResealedAt(right, pk, g, r.tokens, t);
      ResealedLocally(left, right, pk, g, r.tokens, t);
    }
  }

  /** Rotating a vault the older state no longer has changes nothing the older state holds. */
  lemma RotatedElsewhere(a: Db, b: Db, pk: nat, r: RotationRequest, ctx: Ctx)
    requires Inv(a) && Inv(b) && Remnant(a, b)
    requires Applicable(a, pk, r) && pk !in b.vaults
    ensures Rotated(a, pk, a.vaults[pk], r, ctx).Ok?
    ensures Remnant(Rotated(a, pk, a.vaults[pk], r, ctx).value, b)
  {
    hide Inv, Rotated, Resealed, Applicable;
    RotatedKeys(a, pk, r, ctx);
    var left := Without(a.tokens, Removed(a.tokens, pk, r.revoke));
    forall t | t in b.tokens
      ensures t in Resealed(left, pk, r.fromGeneration + 1, r.tokens)
      ensures Resealed(left, pk, r.fromGeneration + 1, r.tokens)[t] == b.tokens[t]
    {
      TokenVaultKnown(b, t);
      ResealedAt(left, pk, r.fromGeneration + 1, r.tokens, t);
    }
  }

  /** Replaying a rotation rotates the vault it names, or skips a vault that is gone. */
  lemma ReplayedRotation(db: Db, record: JournalRecord, pk: nat)
    requires Inv(db) && Admissible(db, record) && record.op.Rotation?
    ensures var r := record.op.request;
            if Named(db, pk, record.op.vaultId) then
              && Applicable(db, pk, r)
              && Rotated(db, pk, db.vaults[pk], r, Ctx(record.op.actor, record.ts)).Ok?
              && Replay(db, record).db ==
                   Rotated(db, pk, db.vaults[pk], r,
                       Ctx(record.op.actor, record.ts)).value.(lastApplied := record.seqNo)
            else (forall qk :: !Named(db, qk, record.op.vaultId)) ==>
              Replay(db, record).db == db.(lastApplied := record.seqNo)
  {
    hide Inv, LoadById, Rotated, Separated, Positive, ResealedIds;
    LoadByIdOk(db, pk, record.op.vaultId);
    if Named(db, pk, record.op.vaultId) {
      RotatedInv(db, pk, record.op.request, Ctx(record.op.actor, record.ts));
    }
  }

  lemma RemnantCounter(a: Db, b: Db, n: nat)
    requires Remnant(a, b)
    ensures Remnant(a.(lastApplied := n), b.(lastApplied := n))
  {
  }

  lemma RotationCarries(a: Db, b: Db, record: JournalRecord)
    requires Inv(a) && Inv(b) && Remnant(a, b) && Admissible(a, record) && Admissible(b, record)
    requires record.op.Rotation?
    ensures Remnant(Replay(a, record).db, Replay(b, record).db)
  {
    hide Inv, Remnant, Replay, Rotated, Applicable, Admissible;
    var r, ctx, id := record.op.request, Ctx(record.op.actor, record.ts), record.op.vaultId;
    if pk :| Named(a, pk, id) {
      ReplayedRotation(a, record, pk);
      ReplayedRotation(b, record, pk);
      if Named(b, pk, id) {
        RotatedCarries(a, b, pk, r, ctx);
        RemnantCounter(Rotated(a, pk, a.vaults[pk], r, ctx).value, Rotated(b, pk, b.vaults[pk], r, ctx).value,
            record.seqNo);
      } else {
        OnlyNamesOf(a, b, pk, id);
        RotatedElsewhere(a, b, pk, r, ctx);
        RemnantCounter(Rotated(a, pk, a.vaults[pk], r, ctx).value, b, record.seqNo);
      }
    } else {
      NamesOf(a, b, id);
      ReplayedRotation(a, record, 0);
      ReplayedRotation(b, record, 0);
      RemnantCounter(a, b, record.seqNo);
    }
  }

  lemma NamesOf(a: Db, b: Db, id: VaultId)
    requires Remnant(a, b)
    ensures forall pk :: Named(b, pk, id) ==> Named(a, pk, id)
  {
  }

  /** The only vault of that id is the live one's, so a remnant without it has none. */
  lemma OnlyNamesOf(a: Db, b: Db, pk: nat, id: VaultId)
    requires Inv(a) && Remnant(a, b) && Named(a, pk, id) && !Named(b, pk, id)
    ensures pk !in b.vaults && forall qk :: !Named(b, qk, id)
  {
    hide VaultOk, TokensOk;
    NamesOf(a, b, id);
  }

  /** What replaying a deletion means: the named vault goes with its tokens, and nothing else does. */
  lemma ReplayedDeletion(db: Db, record: JournalRecord)
    requires Inv(db) && Admissible(db, record) && record.op.Deletion?
    ensures var db' := Replay(db, record).db;
            && (forall pk :: pk in db'.vaults <==> pk in db.vaults && !Named(db, pk, record.op.vaultId))
            && (forall pk :: pk in db'.vaults ==> db'.vaults[pk] == db.vaults[pk])
            && (forall t :: t in db'.tokens <==> t in db.tokens && !Of(db, t, record.op.vaultId))
            && (forall t :: t in db'.tokens ==> db'.tokens[t] == db.tokens[t])
            && db'.lastApplied == record.seqNo
  {
    hide Inv;
    if exists pk :: Named(db, pk, record.op.vaultId) {
      var pk :| Named(db, pk, record.op.vaultId)
                && Replay(db, record).db == WithoutVault(db, pk).(lastApplied := record.seqNo);
      forall qk | Named(db, qk, record.op.vaultId)
        ensures qk == pk
      {
        VaultNamedOnce(db, pk, qk, record.op.vaultId);
      }
      assert forall t :: t in db.tokens ==> (Of(db, t, record.op.vaultId) <==> db.tokens[t].vaultPk == pk);
    } else {
      assert forall t :: !Of(db, t, record.op.vaultId);
    }
  }

  lemma DeletionCarries(a: Db, b: Db, record: JournalRecord)
    requires Inv(a) && Inv(b) && Remnant(a, b) && Admissible(a, record) && Admissible(b, record)
    requires record.op.Deletion?
    ensures Remnant(Replay(a, record).db, Replay(b, record).db)
  {
    hide Inv, Replay;
    ReplayedDeletion(a, record);
    ReplayedDeletion(b, record);
    var b' := Replay(b, record).db;
    forall t | t in b'.tokens
      ensures t in Replay(a, record).db.tokens
    {
      TokenVaultKnown(b, t);
      SameNames(a, b, b.tokens[t].vaultPk, record.op.vaultId);
    }
  }

  /** Replaying one record onto a state and onto a remnant of it keeps the second a remnant. */
  lemma ReplayCarries(a: Db, b: Db, record: JournalRecord)
    requires Inv(a) && Inv(b) && Remnant(a, b) && Admissible(a, record)
    ensures Admissible(b, record)
    ensures Replay(b, record).answer.Ok? && Inv(Replay(b, record).db)
    ensures Remnant(Replay(a, record).db, Replay(b, record).db)
  {
    hide *;
    RemnantAdmits(a, b, record);
    ReplayInv(b, record);
    match record.op
    case Revocation(_, _, _, _) => RevocationCarries(a, b, record);
    case Rotation(_, _, _) => RotationCarries(a, b, record);
    case Deletion(_) => DeletionCarries(a, b, record);
  }

  // ------------------------------------------------------------ whole histories

  /** Replay every record in order; records the database already reflects are skipped. */
  ghost function ReplayAll(db: Db, journal: seq<JournalRecord>): Result<Db, StoreError> {
    if journal == [] then Ok(db) else
      var before :- ReplayAll(db, journal[..|journal| - 1]);
      var o := Replay(before, journal[|journal| - 1]);
      var _ :- o.answer;
      Ok(o.db)
  }

  /** Every committed state there has been on this line of history, the live one last, and the journal. */
  datatype World = World(snapshots: seq<Db>, journal: seq<JournalRecord>)

  /** `Crash(op)` is a call whose journal write landed, if it makes one, but whose commit did not; the
  server then restarts and replays. `Restore(i)` puts the `i`th committed state back and restarts; the
  states after it are abandoned. */
  datatype Action = Do(op: Op) | Crash(op: Op) | Restore(i: nat)

  ghost predicate Possible(w: World, a: Action) {
    && w.snapshots != []
    && (a.Restore? ==> a.i < |w.snapshots|)
  }

  ghost function Live(w: World): Db
    requires w.snapshots != []
  {
    w.snapshots[|w.snapshots| - 1]
  }

  ghost function Recovered(db: Db, journal: seq<JournalRecord>): Db {
    match ReplayAll(db, journal) case Ok(r) => r case Err(_) => db
  }

  ghost function Act(w: World, a: Action): World
    requires Possible(w, a)
  {
    match a
    case Do(op) =>
      World(w.snapshots + [Step(Live(w), op).db], w.journal + Step(Live(w), op).journaled)
    case Crash(op) =>
      var journal := w.journal + Step(Live(w), op).journaled;
      World(w.snapshots + [Recovered(Live(w), journal)], journal)
    case Restore(i) =>
      World(w.snapshots[..i + 1] + [Recovered(w.snapshots[i], w.journal)], w.journal)
  }

  /** The journal is numbered, and each record past the state's own counter is admissible in its turn. */
  ghost predicate Stepwise(db: Db, journal: seq<JournalRecord>)
    decreases |journal|
  {
    journal == [] ||
    var front, last := journal[..|journal| - 1], journal[|journal| - 1];
    && Stepwise(db, front)
    && last.seqNo == |journal|
    && ReplayAll(db, journal).Ok?
    && Inv(Recovered(db, front))
    && (last.seqNo > db.lastApplied ==> Admissible(Recovered(db, front), last))
  }

  ghost predicate Replays(db: Db, journal: seq<JournalRecord>) {
    Inv(db) && Stepwise(db, journal) && ReplayAll(db, journal).Ok? && Inv(Recovered(db, journal))
  }

  /** The journal is numbered from 1, and every snapshot replays, step by step, to a sound state. */
  ghost predicate Replayable(snapshots: seq<Db>, journal: seq<JournalRecord>) {
    && (forall k :: 0 <= k < |journal| ==> journal[k].seqNo == k + 1)
    && (forall i :: 0 <= i < |snapshots| ==> Replays(snapshots[i], journal))
  }

  /** Of any two snapshots, the earlier one's replay is a remnant of the later one's. */
  ghost predicate Ordered(snapshots: seq<Db>, journal: seq<JournalRecord>) {
    forall i, j :: 0 <= i <= j < |snapshots| ==>
      Remnant(Recovered(snapshots[j], journal), Recovered(snapshots[i], journal))
  }

  ghost predicate WorldOk(w: World) {
    && w.snapshots != []
    && Replayable(w.snapshots, w.journal)
    && Ordered(w.snapshots, w.journal)
    && Live(w).lastApplied == |w.journal|
    && Recovered(Live(w), w.journal) == Live(w)
  }

  /** A state that reflects the whole journal is left alone by replaying it. */
  lemma {:induction false} NothingToReplay(db: Db, journal: seq<JournalRecord>)
    requires Inv(db) && |journal| <= db.lastApplied
    requires forall k :: 0 <= k < |journal| ==> journal[k].seqNo == k + 1
    ensures ReplayAll(db, journal) == Ok(db) && Replays(db, journal)
  {
    hide Inv, Admissible;
    if journal != [] {
      NothingToReplay(db, journal[..|journal| - 1]);
    }
  }

  lemma StepwiseNext(db: Db, journal: seq<JournalRecord>, record: JournalRecord)
    requires Replays(db, journal) && record.seqNo == |journal| + 1
    requires Admissible(Recovered(db, journal), record)
    requires Replay(Recovered(db, journal), record).answer.Ok? && Inv(Replay(Recovered(db, journal), record).db)
    ensures Replays(db, journal + [record])
    ensures Recovered(db, journal + [record]) == Replay(Recovered(db, journal), record).db
  {
    hide Inv, Admissible, Replay;
    assert (journal + [record])[..|journal|] == journal;
    ReplayAllNext(db, journal, record);
  }

  lemma ReplayAllNext(db: Db, journal: seq<JournalRecord>, record: JournalRecord)
    requires ReplayAll(db, journal).Ok? && Replay(Recovered(db, journal), record).answer.Ok?
    ensures ReplayAll(db, journal + [record]) == Ok(Replay(Recovered(db, journal), record).db)
    ensures Recovered(db, journal + [record]) == Replay(Recovered(db, journal), record).db
  {
    hide Replay;
    assert (journal + [record])[..|journal|] == journal;
  }

  /** Journaling one more record the live state admits keeps every snapshot replayable and ordered. */
  lemma JournalOneMore(snapshots: seq<Db>, journal: seq<JournalRecord>, record: JournalRecord)
    requires snapshots != [] && Replayable(snapshots, journal) && Ordered(snapshots, journal)
    requires record.seqNo == |journal| + 1
    requires Admissible(Recovered(snapshots[|snapshots| - 1], journal), record)
    ensures Replayable(snapshots, journal + [record]) && Ordered(snapshots, journal + [record])
  {
    hide Inv, Remnant, Replay, ReplayAll, Recovered, Admissible, Stepwise;
    var top := |snapshots| - 1;
    forall i | 0 <= i < |snapshots|
      ensures Admissible(Recovered(snapshots[i], journal), record)
      ensures Replays(snapshots[i], journal + [record])
      ensures Recovered(snapshots[i], journal + [record]) == Replay(Recovered(snapshots[i], journal), record).db
    {
      ReplayCarries(Recovered(snapshots[top], journal), Recovered(snapshots[i], journal), record);
      StepwiseNext(snapshots[i], journal, record);
    }
    forall i, j | 0 <= i <= j < |snapshots|
      ensures Remnant(Recovered(snapshots[j], journal + [record]), Recovered(snapshots[i], journal + [record]))
    {
      ReplayCarries(Recovered(snapshots[j], journal), Recovered(snapshots[i], journal), record);
    }
  }

  /** A new snapshot that the latest one is a remnant of can be added. */
  lemma SnapshotOneMore(snapshots: seq<Db>, journal: seq<JournalRecord>, db: Db)
    requires snapshots != [] && Replayable(snapshots, journal) && Ordered(snapshots, journal)
    requires ReplayAll(db, journal) == Ok(db) && Replays(db, journal)
    requires Remnant(db, Recovered(snapshots[|snapshots| - 1], journal))
    ensures Replayable(snapshots + [db], journal) && Ordered(snapshots + [db], journal)
  {
    hide Inv, Remnant, ReplayAll, Stepwise;
    var more, top := snapshots + [db], |snapshots| - 1;
    assert Recovered(db, journal) == db;
    forall i, j | 0 <= i <= j < |more|
      ensures Remnant(Recovered(more[j], journal), Recovered(more[i], journal))
    {
      if j == |snapshots| {
        if i < j {
          RemnantTransitive(db, Recovered(snapshots[top], journal), Recovered(snapshots[i], journal));
        } else {
          RemnantReflexive(db);
        }
      }
    }
  }

  lemma QuietOk(w: World, db: Db)
    requires WorldOk(w) && Inv(db) && Remnant(db, Live(w))
    ensures WorldOk(World(w.snapshots + [db], w.journal))
  {
    hide Inv, Replayable, Ordered, ReplayAll, Replays;
    Numbered(w);
    NothingToReplay(db, w.journal);
    SnapshotOneMore(w.snapshots, w.journal, db);
  }

  lemma Numbered(w: World)
    requires WorldOk(w)
    ensures forall k :: 0 <= k < |w.journal| ==> w.journal[k].seqNo == k + 1
  {
    hide Inv, Remnant, ReplayAll, Replays;
  }

  lemma LiveIsSound(w: World)
    requires WorldOk(w)
    ensures Inv(Live(w))
  {
    hide Inv, Remnant, ReplayAll, Stepwise;
  }

  lemma JournaledOk(w: World, record: JournalRecord)
    requires WorldOk(w) && Admissible(Live(w), record)
    ensures Recovered(Live(w), w.journal + [record]) == Replay(Live(w), record).db
    ensures WorldOk(World(w.snapshots + [Replay(Live(w), record).db], w.journal + [record]))
  {
    hide Inv, Replayable, Ordered, ReplayAll, Replay, Remnant, Replays;
    var journal, db := w.journal + [record], Replay(Live(w), record).db;
    LiveIsSound(w);
    ReplayInv(Live(w), record);
    assert ReplayAll(Live(w), w.journal).Ok? by { LiveReplays(w); }
    ReplayAllNext(Live(w), w.journal, record);
    JournalOneMore(w.snapshots, w.journal, record);
    Numbered(w);
    NothingToReplay(db, journal);
    RemnantReflexive(db);
    SnapshotOneMore(w.snapshots, journal, db);
  }

  lemma LiveReplays(w: World)
    requires WorldOk(w)
    ensures ReplayAll(Live(w), w.journal).Ok?
  {
    hide Inv, Remnant, ReplayAll, Stepwise;
  }

  lemma DoOk(w: World, op: Op)
    requires WorldOk(w)
    ensures WorldOk(Act(w, Do(op))) && WorldOk(Act(w, Crash(op)))
    ensures Step(Live(w), op).journaled != [] ==> Act(w, Crash(op)) == Act(w, Do(op))
  {
    hide Inv, WorldOk, Replay, ReplayAll, Step, Remnant, Admissible;
    hide Recovered;
    LiveIsLive(w);
    var e := Step(Live(w), op);
    LiveIsSound(w);
    JournaledIsExact(Live(w), op);
    if e.journaled == [] {
      assert w.journal + e.journaled == w.journal;
      StepInv(Live(w), op);
      QuietStepsOnlyAdd(Live(w), op);
      QuietOk(w, e.db);
      RemnantReflexive(Live(w));
      QuietOk(w, Live(w));
    } else {
      assert e.journaled == [e.journaled[0]];
      JournaledOk(w, e.journaled[0]);
    }
  }

  lemma LiveIsLive(w: World)
    requires WorldOk(w)
    ensures w.snapshots != [] && Recovered(Live(w), w.journal) == Live(w)
  {
  }

  lemma RestoreOk(w: World, i: nat)
    requires WorldOk(w) && i < |w.snapshots|
    ensures WorldOk(Act(w, Restore(i)))
  {
    hide Inv, Remnant, ReplayAll, Recovered, Stepwise;
    var kept, db := w.snapshots[..i + 1], Recovered(w.snapshots[i], w.journal);
    assert Replayable(kept, w.journal) && Ordered(kept, w.journal);
    assert Remnant(Recovered(Live(w), w.journal), db);
    assert db.lastApplied == |w.journal| by { RemnantCounts(Live(w), db); }
    NothingToReplay(db, w.journal);
    assert Recovered(db, w.journal) == db by { RecoveredIs(db, w.journal); }
    RemnantReflexive(db);
    SnapshotOneMore(kept, w.journal, db);
  }

  lemma RemnantCounts(a: Db, b: Db)
    requires Remnant(a, b)
    ensures a.lastApplied == b.lastApplied
  {
  }

  lemma RecoveredIs(db: Db, journal: seq<JournalRecord>)
    requires ReplayAll(db, journal) == Ok(db)
    ensures Recovered(db, journal) == db
  {
  }

  ghost predicate Feasible(actions: seq<Action>)
    decreases |actions|, 0
  {
    actions == [] ||
    (Feasible(actions[..|actions| - 1])
     && Possible(History(actions[..|actions| - 1]), actions[|actions| - 1]))
  }

  /** The world after `actions`, starting from an empty database and an empty journal. */
  ghost function History(actions: seq<Action>): World
    requires Feasible(actions)
    decreases |actions|, 1
  {
    if actions == [] then World([EmptyDb], [])
    else Act(History(actions[..|actions| - 1]), actions[|actions| - 1])
  }

  /** Whatever is called, wherever it crashes and whatever is restored, the history stays sound. */
  lemma {:induction false} EveryHistoryIsSound(actions: seq<Action>)
    requires Feasible(actions)
    ensures WorldOk(History(actions))
    decreases |actions|
  {
    hide WorldOk, Act;
    if actions == [] {
      assert WorldOk(World([EmptyDb], [])) by { StartIsSound(); }
    } else {
      var w, a := History(actions[..|actions| - 1]), actions[|actions| - 1];
      EveryHistoryIsSound(actions[..|actions| - 1]);
      match a
      case Do(op) => DoOk(w, op);
      case Crash(op) => DoOk(w, op);
      case Restore(i) => RestoreOk(w, i);
    }
  }

  lemma StartIsSound()
    ensures WorldOk(World([EmptyDb], []))
  {
    hide Replay;
    assert Inv(EmptyDb);
    NothingToReplay(EmptyDb, []);
    RemnantReflexive(EmptyDb);
  }

  // ------------------------------------------------------------ what a restore gives back

  ghost predicate HasVault(db: Db, id: VaultId) {
    exists pk :: Named(db, pk, id)
  }

  /** A record after number `after` deletes the vault. */
  ghost predicate DeletedSince(journal: seq<JournalRecord>, after: nat, id: VaultId) {
    exists k :: after <= k < |journal| && journal[k].op == Deletion(id)
  }

  /** One replayed record takes away the vault it deletes, and no other. */
  lemma ReplayKeepsVaults(db: Db, record: JournalRecord, id: VaultId)
    requires Inv(db) && Admissible(db, record)
    ensures HasVault(Replay(db, record).db, id) <==> HasVault(db, id) && record.op != Deletion(id)
  {
    hide Inv, Replay, Admissible;
    var db' := Replay(db, record).db;
    match record.op {
      case Revocation(_, _, _, _) =>
        ReplayedRevocation(db, record);
        assert forall pk :: Named(db', pk, id) <==> Named(db, pk, id);
      case Rotation(vault, _, _) =>
        RotationNames(db, record, id);
      case Deletion(vault) =>
        ReplayedDeletion(db, record);
        assert forall pk :: Named(db', pk, id) ==> Named(db, pk, id) && !Named(db, pk, vault);
        if vault != id {
          assert forall pk :: Named(db, pk, id) ==> Named(db', pk, id);
        }
    }
  }

  lemma RotationNames(db: Db, record: JournalRecord, id: VaultId)
    requires Inv(db) && Admissible(db, record) && record.op.Rotation?
    ensures forall pk :: Named(Replay(db, record).db, pk, id) <==> Named(db, pk, id)
  {
    hide Inv, Replay, Admissible, Rotated, Applicable;
    if pk :| Named(db, pk, record.op.vaultId) {
      ReplayedRotation(db, record, pk);
      RotatedKeys(db, pk, record.op.request, Ctx(record.op.actor, record.ts));
    } else {
      ReplayedRotation(db, record, 0);
    }
  }

  /** A numbered journal's replay onto a sound state, record by record: exactly the vaults deleted by the
  records the state had not reflected are gone. */
  lemma {:induction false} ReplayAllKeepsVaults(db: Db, journal: seq<JournalRecord>, id: VaultId)
    requires Inv(db) && Stepwise(db, journal)
    ensures HasVault(Recovered(db, journal), id)
            <==> HasVault(db, id) && !DeletedSince(journal, db.lastApplied, id)
    decreases |journal|
  {
    hide Inv, Replay, Admissible, HasVault;
    if journal != [] {
      var front, last := journal[..|journal| - 1], journal[|journal| - 1];
      ReplayAllKeepsVaults(db, front, id);
      if last.seqNo <= db.lastApplied {
        StepwiseSkips(db, journal);
        assert !DeletedSince(journal, db.lastApplied, id);
        assert !DeletedSince(front, db.lastApplied, id);
      } else {
        ReplayKeepsVaults(Recovered(db, front), last, id);
        DeletedSinceSplit(journal, db.lastApplied, id);
      }
    }
  }

  lemma {:induction false} StepwiseSkips(db: Db, journal: seq<JournalRecord>)
    requires Stepwise(db, journal) && |journal| <= db.lastApplied
    ensures ReplayAll(db, journal) == Ok(db)
    decreases |journal|
  {
    hide Inv, Admissible;
    if journal != [] {
      StepwiseSkips(db, journal[..|journal| - 1]);
    }
  }

  lemma DeletedSinceSplit(journal: seq<JournalRecord>, after: nat, id: VaultId)
    requires journal != [] && after < |journal|
    ensures DeletedSince(journal, after, id)
            <==> DeletedSince(journal[..|journal| - 1], after, id) || journal[|journal| - 1].op == Deletion(id)
  {
    var front := journal[..|journal| - 1];
    if DeletedSince(front, after, id) {
      var k :| after <= k < |front| && front[k].op == Deletion(id);
      assert journal[k].op == Deletion(id);
    }
    if DeletedSince(journal, after, id) {
      var k :| after <= k < |journal| && journal[k].op == Deletion(id);
      if k < |front| {
        assert front[k].op == Deletion(id);
        assert DeletedSince(front, after, id);
      }
    }
  }

  /** Restore and replay. Take any history of calls, crashes and restores, and any committed state of its
  current line as a backup. Replaying the journal onto the backup never fails and reaches the live counter. The
  vaults it leaves are exactly those of the backup that were not deleted since, each with the live
  generation, descriptors and owner bundle; every token it leaves is live, with its live row and at its
  vault's generation. So no deleted vault and no revoked token comes back, and no rotation is undone. */
  lemma RestoreAndReplay(actions: seq<Action>, i: nat)
    requires Feasible(actions) && i < |History(actions).snapshots|
    ensures var w := History(actions);
            var backup, restored := w.snapshots[i], Recovered(w.snapshots[i], w.journal);
            && w.snapshots != []
            && ReplayAll(backup, w.journal).Ok?
            && restored.lastApplied == Live(w).lastApplied
            && Inv(restored)
            && (forall id :: HasVault(restored, id)
                  <==> HasVault(backup, id) && !DeletedSince(w.journal, backup.lastApplied, id))
            && (forall pk :: pk in restored.vaults ==>
                  pk in Live(w).vaults && SameKeys(Live(w).vaults[pk], restored.vaults[pk]))
            && (forall t :: t in restored.tokens ==>
                  && t in Live(w).tokens && Live(w).tokens[t] == restored.tokens[t]
                  && TokenOk(restored, t))
  {
    hide Inv, SameKeys, HasVault, DeletedSince, ReplayAll, Recovered, Feasible, History, Stepwise;
    var w := History(actions);
    EveryHistoryIsSound(actions);
    var backup, restored := w.snapshots[i], Recovered(w.snapshots[i], w.journal);
    assert Replays(backup, w.journal);
    assert Remnant(Recovered(Live(w), w.journal), restored);
    forall id {
      ReplayAllKeepsVaults(backup, w.journal, id);
    }
    forall t | t in restored.tokens
      ensures TokenOk(restored, t)
    {
      TokenIsOk(restored, t);
    }
  }

  lemma TokenIsOk(db: Db, t: TokenId)
    requires Inv(db) && t in db.tokens
    ensures TokenOk(db, t)
  {
    hide VaultOk;
  }
}
