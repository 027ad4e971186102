/** The store as it runs: an object whose methods change its tables in place, one transaction each.

Every method works on a copy of the tables and installs it or drops it, and is proved to leave exactly
what the transaction of the same name in `Database` says. */
module SqliteStore {
  import opened Types
  import opened Tables
  import opened Rotations
  import opened Database
  import opened Invariant
  import opened Recovery
  import Restoration

  // ------------------------------------------------------------ the loops

  /** Delete the listed versions one by one. */
  method DeleteVersions(t: Table, name: NameHmac, versions: seq<nat>) returns (t': Table)
    ensures t' == t.(rows := t.rows - KeysOf(name, versions))
  {
    t' := t;
    assert t.rows - KeysOf(name, versions[..0]) == t.rows;
    for i := 0 to |versions|
      invariant t' == t.(rows := t.rows - KeysOf(name, versions[..i]))
    {
      t' := t'.(rows := t'.rows - {Key(name, versions[i])});
      assert versions[..i + 1] == versions[..i] + [versions[i]];
      assert t.rows - KeysOf(name, versions[..i]) - {Key(name, versions[i])}
          == t.rows - KeysOf(name, versions[..i + 1]);
    }
    assert versions[..|versions|] == versions;
  }

  /** Delete the vault's listed tokens one by one, keeping those that were there. */
  method DeleteTokens(tokens: map<TokenId, TokenRow>, pk: nat, ids: seq<TokenId>)
    returns (left: map<TokenId, TokenRow>, removed: seq<TokenId>)
    ensures removed == Removed(tokens, pk, ids)
    ensures left == Without(tokens, removed)
  {
    left, removed := tokens, [];
    for i := 0 to |ids|
      invariant removed == Removed(tokens, pk, ids[..i])
      invariant left == Without(tokens, removed)
    {
      assert ids[..i + 1][..i] == ids[..i];
      if ids[i] in left && left[ids[i]].vaultPk == pk {
        left := left - {ids[i]};
        removed := removed + [ids[i]];
      }
    }
    assert ids[..|ids|] == ids;
  }

  /** Write the tracked heads, in whatever order they come. */
  method SetHeads(newest: map<NameHmac, Head>) returns (heads: map<NameHmac, Head>)
    ensures heads == newest
  {
    heads := map[];
    var names := newest.Keys;
    while names != {}
      invariant names <= newest.Keys
      invariant heads.Keys == newest.Keys - names
      invariant forall n :: n in heads ==> heads[n] == newest[n]
      decreases |names|
    {
      var n :| n in names;
      heads := heads[n := newest[n]];
      names := names - {n};
    }
  }

  /** Put a batch in place of everything of one kind: insert the rows, tracking each name's newest, then set the
  heads; and count the bytes. A row that is already there cannot be inserted, so this fails exactly on a
  batch that repeats a new name and version. */
  method ReplaceRecords(batch: seq<RotatedVersion>, rows: map<Key, VersionRow>, actor: Actor, generation: nat)
    returns (r: Result<(Table, nat), StoreError>)
    ensures r.Ok? <==> Separated(batch)
    ensures r.Ok? ==> r.value == (Rebuilt(batch, rows, actor, generation), BatchBytes(batch))
  {
    hide RowOf, Separated, EntryBytes;
    var t, bytes := EmptyTable, 0;
    var newest: map<NameHmac, Head> := map[];
    assert Separated(batch[..0]) by { NothingRepeats(batch[..0]); }
    for i := 0 to |batch|
      invariant Table(t.rows, newest) == Rebuilt(batch[..i], rows, actor, generation)
      invariant bytes == BatchBytes(batch[..i])
      invariant Separated(batch[..i])
    {
      var s, row := batch[i], RowOf(batch[i], rows, actor, generation);
      assert batch[..i + 1][..i] == batch[..i];
      RowOfTombstone(s, rows, actor, generation);
      SeparatedNext(batch, i, rows, actor, generation);
      if NewKey(s) in t.rows {
        return Err(Exists);
      }
      t := t.(rows := t.rows[NewKey(s) := row]);
      bytes := bytes + EntryBytes(s);
      if s.name !in newest || s.version >= newest[s.name].version {
        newest := newest[s.name := Head(s.version, row.tombstone)];
      }
    }
    assert batch[..|batch|] == batch;
    var heads := SetHeads(newest);
    return Ok((t.(heads := heads), bytes));
  }

  lemma NothingRepeats(batch: seq<RotatedVersion>)
    requires batch == []
    ensures Separated(batch)
  {
    assert Elements(NewKeys(batch)) == {};
  }

  lemma RowOfTombstone(s: RotatedVersion, rows: map<Key, VersionRow>, actor: Actor, generation: nat)
    ensures RowOf(s, rows, actor, generation).tombstone == s.valueCt.None?
  {
  }

  /** The next row can be inserted exactly when the batch up to it repeats nothing; a repetition stays one
  however the batch goes on. */
  lemma SeparatedNext(batch: seq<RotatedVersion>, i: nat, rows: map<Key, VersionRow>, actor: Actor, generation: nat)
    requires i < |batch| && Separated(batch[..i])
    ensures Separated(batch[..i + 1]) <==> NewKey(batch[i]) !in Rebuilt(batch[..i], rows, actor, generation).rows
    ensures Separated(batch) ==> Separated(batch[..i + 1])
  {
    hide Rebuilt, Elements;
    var front, next := batch[..i], batch[..i + 1];
    FullSizeMeansDistinct(NewKeys(front));
    FullSizeMeansDistinct(NewKeys(next));
    FullSizeMeansDistinct(NewKeys(batch));
    RebuiltKeys(front, rows, actor, generation, NewKey(batch[i]));
    assert forall j :: 0 <= j < i ==> NewKeys(next)[j] == NewKeys(front)[j] == NewKeys(batch)[j];
  }

  /** Reseal the listed tokens one by one. */
  method ResealTokens(tokens: map<TokenId, TokenRow>, pk: nat, generation: nat, list: seq<ResealedBundle>)
    returns (left: map<TokenId, TokenRow>)
    ensures left == Resealed(tokens, pk, generation, list)
  {
    left := tokens;
    for i := 0 to |list|
      invariant left == Resealed(tokens, pk, generation, list[..i])
    {
      assert list[..i + 1][..i] == list[..i];
      var e := list[i];
      if e.tokenId in left && left[e.tokenId].vaultPk == pk {
        left := left[e.tokenId := left[e.tokenId].(bundle := e.bundle, generation := generation)];
      }
    }
    assert list[..|list|] == list;
  }

  /** Append the rows one by one. */
  method AppendRows(v: Vault, events: seq<AuditEvent>, now: int) returns (r: Result<Vault, StoreError>)
    ensures r == AppendAll(v, events, now)
  {
    var v' := v;
    for i := 0 to |events|
      invariant AppendAll(v, events[..i], now) == Ok(v')
    {
      assert events[..i + 1][..i] == events[..i];
      var step := AppendAudit(v', events[i], now);
      if step.Err? {
        FailsFromHere(v, events, now, i + 1);
        return step;
      }
      v' := step.value;
    }
    assert events[..|events|] == events;
    return Ok(v');
  }

  /** Once an append fails, the rest of the rows cannot mend it. */
  lemma {:induction false} FailsFromHere(v: Vault, events: seq<AuditEvent>, now: int, i: nat)
    requires i <= |events| && AppendAll(v, events[..i], now).Err?
    ensures AppendAll(v, events, now) == AppendAll(v, events[..i], now)
    decreases |events|
  {
    if i == |events| {
      assert events[..i] == events;
    } else {
      var front := events[..|events| - 1];
      assert front[..i] == events[..i];
      FailsFromHere(v, front, now, i);
    }
  }

  /** Insert a version, move the head and delete what is pruned, step by step. */
  method StoreVersion(v: Vault, kind: RecordKind, name: NameHmac, version: nat, row: VersionRow,
                      maxVersions: nat, total: nat) returns (r: Result<Vault, StoreError>)
    ensures r == Stored(v, kind, name, version, row, maxVersions, total)
  {
    var t := v.Records(kind);
    var pruned := Prunable(t, name, maxVersions);
    if Key(name, version) in t.rows {
      return Err(Exists);
    }
    t := t.(rows := t.rows[Key(name, version) := row]);
    t := t.(heads := t.heads[name := Head(version, row.tombstone)]);
    t := DeleteVersions(t, name, pruned);
    return Ok(v.WithRecords(kind, t).(bytesUsed := total, revision := v.revision + 1));
  }

  /** A rotation past its checks: both kinds replaced, the descriptor added, tokens dropped and resealed,
  and every change audited. */
  method RotateTables(tx: Db, pk: nat, v: Vault, r: RotationRequest, ctx: Ctx) returns (o: Result<Db, StoreError>)
    ensures o == Rotated(tx, pk, v, r, ctx)
  {
    hide Rebuilt, AppendAll, Removed, Resealed, Without, Separated, BatchBytes, RotationEvents;
    if !Separated(r.secrets) || !Separated(r.configs) {
      return Err(IncompleteRotation);
    }
    var g := r.fromGeneration + 1;
    var secrets := ReplaceRecords(r.secrets, v.secrets.rows, ctx.actor, g);
    var configs := ReplaceRecords(r.configs, v.configs.rows, ctx.actor, g);
    var v' := v.(secrets := secrets.value.0, configs := configs.value.0);
    if g !in v'.descriptors {
      v' := v'.(descriptors := v'.descriptors[g := r.descriptor]);
    }
    var left, removed := DeleteTokens(tx.tokens, pk, r.revoke);
    left := ResealTokens(left, pk, g, r.tokens);
    v' := v'.(generation := g, ownerBundle := r.ownerBundle, bytesUsed := secrets.value.1 + configs.value.1,
              revision := v'.revision + 1);
    var audited := AppendRows(v', RotationEvents(r, removed, ctx.actor), ctx.now);
    if audited.Err? {
      return Err(audited.error);
    }
    return Ok(WithVault(tx, pk, audited.value).(tokens := left));
  }

  /** Drop the listed tokens, raise the revision and audit each. */
  method RevokeTables(tx: Db, pk: nat, v: Vault, removed: seq<TokenId>, left: map<TokenId, TokenRow>, actor: Actor,
                      reported: bool, now: int) returns (o: Result<Db, StoreError>)
    requires left == Without(tx.tokens, removed)
    ensures o == Revoked(tx, pk, v, removed, actor, reported, now)
  {
    hide AppendAll, Without, RevokeEvents;
    var audited := AppendRows(v.(revision := v.revision + 1), RevokeEvents(removed, actor, reported), now);
    if audited.Err? {
      return Err(audited.error);
    }
    return Ok(WithVault(tx, pk, audited.value).(tokens := left));
  }

  /** Find the vault a record names, and apply the record to it. */
  method ReplayTables(tx: Db, record: JournalRecord) returns (done: Result<Done<bool>, StoreError>)
    requires Inv(tx)
    ensures done == ReplayOp(tx, record)
  {
    hide Inv, Revoked, Rotated, LoadById, Removed, Without, WithoutVault, LoadVault;
    match record.op
    case Revocation(id, ids, actor, reported) =>
      LoadByIdOk(tx, 0, id);
      if pk :| pk in tx.vaults && tx.vaults[pk].id == id && LoadVault(tx, pk).Ok? {
        LoadByIdOk(tx, pk, id);
        var left, removed := DeleteTokens(tx.tokens, pk, ids);
        if removed == [] {
          return Ok(Done(tx, Ok(false)));
        }
        var o := RevokeTables(tx, pk, tx.vaults[pk], removed, left, actor, reported, record.ts);
        return if o.Err? then Err(o.error) else Ok(Done(o.value, Ok(true)));
      }
      return Ok(Done(tx, Ok(false)));
    case Rotation(id, actor, request) =>
      LoadByIdOk(tx, 0, id);
      if pk :| pk in tx.vaults && tx.vaults[pk].id == id && LoadVault(tx, pk).Ok? {
        LoadByIdOk(tx, pk, id);
        if tx.vaults[pk].generation != request.fromGeneration {
          return Ok(Done(tx, Ok(false)));
        }
        var o := RotateTables(tx, pk, tx.vaults[pk], request, Ctx(actor, record.ts));
        return if o.Err? then Err(o.error) else Ok(Done(o.value, Ok(true)));
      }
      return Ok(Done(tx, Ok(false)));
    case Deletion(id) =>
      if pk :| pk in tx.vaults && tx.vaults[pk].id == id {
        DeletesTheNamed(tx, pk, record);
        return Ok(Done(WithoutVault(tx, pk), Ok(true)));
      }
      return Ok(Done(tx, Ok(false)));
  }

  // ------------------------------------------------------------ the store

  class Store {
    var vaults: map<nat, Vault>
    var tokens: map<TokenId, TokenRow>
    var spent: map<SpentKey, int>
    var lastApplied: nat

    function State(): Db
      reads this
    {
      Db(vaults, tokens, spent, lastApplied)
    }

    ghost predicate Valid()
      reads this
    {
      Inv(State())
    }

    constructor ()
      ensures State() == EmptyDb && Valid()
    {
      vaults, tokens, spent, lastApplied := map[], map[], map[], 0;
    }

    /** Commit: the copy becomes the tables. */
    method Install(tx: Db)
      modifies this
      ensures State() == tx
    {
      vaults, tokens, spent, lastApplied := tx.vaults, tx.tokens, tx.spent, tx.lastApplied;
    }

    /** Commit one refused row, and answer with the error. */
    method CommitRefusal<T>(pk: nat, v: Vault, e: AuditEvent, now: int, error: StoreError)
      returns (answer: Result<T, StoreError>)
      requires pk in vaults && v == vaults[pk]
      modifies this
      ensures Outcome(State(), answer, []) == Commit(old(State()), Refuse(old(State()), pk, v, e, now, error))
    {
      var audited := AppendAudit(v, e, now);
      if audited.Err? {
        return Err(audited.error);
      }
      Install(WithVault(State(), pk, audited.value));
      return Err(error);
    }

    method CreateVault(v: NewVault, now: int) returns (answer: Result<nat, StoreError>)
      requires Valid()
      modifies this
      ensures Valid()
      ensures Outcome(State(), answer, []) == Database.CreateVault(old(State()), v, now)
    {
      hide Inv, AppendAudit, NextPk;
      CreateVaultInv(State(), v, now);
      if IdTaken(State(), v.id) {
        return Err(Exists);
      }
      var pk := NextPk(State());
      var row := Vault(v.id, v.ownerSignPub, v.ownerBoxPub, v.ownerBundle, 1, 1, now, now, 0, 0, Genesis,
                       map[1 := v.descriptor], EmptyTable, EmptyTable, None, map[]);
      var audited := AppendAudit(
        row, WriteEvent(Owner, VaultCreate, None, 0, Some(Sha256(v.descriptor.descriptor))), now);
      if audited.Err? {
        return Err(audited.error);
      }
      vaults := vaults[pk := audited.value];
      return Ok(pk);
    }

    method RegisterToken(pk: nat, t: NewToken, ctx: Ctx, limits: Limits) returns (answer: Result<TokenRow, StoreError>)
      requires Valid()
      modifies this
      ensures Valid()
      ensures Outcome(State(), answer, []) == Database.RegisterToken(old(State()), pk, t, ctx, limits)
    {
      hide Inv, AppendAudit, Refuse, ActiveTokens;
      RegisterTokenInv(State(), pk, t, ctx, limits);
      var loaded := LoadVault(State(), pk);
      if loaded.Err? {
        return Err(loaded.error);
      }
      var v, refused := loaded.value, Event(ctx.actor, TokenMint, None, Some(t.id), Refused);
      if t.generation != v.generation {
        answer := CommitRefusal(pk, v, refused, ctx.now, StaleGeneration);
        return;
      }
      if |ActiveTokens(State(), pk, ctx.now)| >= limits.maxTokens {
        answer := CommitRefusal(pk, v, refused, ctx.now, QuotaExceeded(Tokens));
        return;
      }
      if t.id in tokens {
        return Err(Exists);
      }
      var row := TokenRow(pk, t.authPub, t.boxPub, t.scope, ctx.now, t.expiresAt, t.bundle, t.generation, t.allowList);
      var audited := AppendAudit(v.(revision := v.revision + 1),
                                 Event(ctx.actor, TokenMint, None, Some(t.id), Success), ctx.now);
      if audited.Err? {
        return Err(audited.error);
      }
      tokens := tokens[t.id := row];
      vaults := vaults[pk := audited.value];
      return Ok(row);
    }

    /** `hook` is whether the journal write lands; `journaled` is what it made durable. */
    method RevokeTokens(pk: nat, ids: seq<TokenId>, reported: bool, ctx: Ctx, hook: bool)
      returns (answer: Result<seq<TokenId>, StoreError>, journaled: seq<JournalRecord>)
      requires Valid()
      modifies this
      ensures Valid()
      ensures Outcome(State(), answer, journaled) == Database.RevokeTokens(old(State()), pk, ids, reported, ctx, hook)
    {
      hide Inv, Revoked, Removed, Without;
      RevokeTokensInv(State(), pk, ids, reported, ctx, hook);
      journaled := [];
      var loaded := LoadVault(State(), pk);
      if loaded.Err? {
        answer := Err(NotFound);
        return;
      }
      var v := loaded.value;
      var left, removed := DeleteTokens(tokens, pk, ids);
      if removed == [] {
        answer := Err(NotFound);
        return;
      }
      var tx := RevokeTables(State(), pk, v, removed, left, ctx.actor, reported, ctx.now);
      if tx.Err? {
        answer := Err(tx.error);
        return;
      }
      if !hook {
        answer := Err(JournalFailed);
        return;
      }
      journaled := [JournalRecord(lastApplied + 1, ctx.now, Revocation(v.id, removed, ctx.actor, reported))];
      Install(tx.value.(lastApplied := tx.value.lastApplied + 1));
      answer := Ok(removed);
    }

    method PutRecord(pk: nat, kind: RecordKind, name: NameHmac, pre: Precondition, w: RecordWrite, ctx: Ctx,
                     limits: Limits)
      returns (answer: Result<nat, StoreError>)
      requires Valid()
      modifies this
      ensures Valid()
      ensures Outcome(State(), answer, []) == Database.PutRecord(old(State()), pk, kind, name, pre, w, ctx, limits)
    {
      hide Inv, AppendAudit, Stored, FreedBy, LiveNames, Assigned, Refuse;
      PutRecordInv(State(), pk, kind, name, pre, w, ctx, limits);
      if w.valueCt.None? {
        return Err(Malformed);
      }
      var loaded := LoadVault(State(), pk);
      if loaded.Err? {
        return Err(loaded.error);
      }
      var v, refused := loaded.value, Event(ctx.actor, PutAction(kind), Some(name), None, Refused);
      if w.generation != v.generation {
        answer := CommitRefusal(pk, v, refused, ctx.now, StaleGeneration);
        return;
      }
      if |w.valueCt.value| > limits.MaxValue(kind) {
        answer := CommitRefusal(pk, v, refused, ctx.now, QuotaExceeded(SizeQuota(kind)));
        return;
      }
      var head := v.HeadOf(kind, name);
      var slot := Assigned(pre, head);
      if slot.Err? {
        answer := CommitRefusal(pk, v, refused, ctx.now, slot.error);
        return;
      }
      var next := slot.value;
      if w.version != next {
        answer := CommitRefusal(pk, v, refused, ctx.now, VersionMismatch(w.version, next));
        return;
      }
      if (head.None? || head.value.tombstone) && |LiveNames(v.Records(kind))| >= limits.MaxLive(kind) {
        answer := CommitRefusal(pk, v, refused, ctx.now, QuotaExceeded(LiveQuota(kind)));
        return;
      }
      var row := WrittenRow(w, ctx.actor);
      var total := v.bytesUsed + RowBytes(row) - FreedBy(v.Records(kind), name, limits.Versions(kind));
      if total < 0 {
        return Err(Underflow);
      }
      if total > limits.maxVaultBytes {
        answer := CommitRefusal(pk, v, refused, ctx.now, QuotaExceeded(VaultBytes));
        return;
      }
      var stored := StoreVersion(v, kind, name, next, row, limits.Versions(kind), total);
      if stored.Err? {
        return Err(stored.error);
      }
      var audited := AppendAudit(stored.value,
        WriteEvent(ctx.actor, PutAction(kind), Some(name), next, Some(ValueHash(w.valueCt))), ctx.now);
      if audited.Err? {
        return Err(audited.error);
      }
      vaults := vaults[pk := audited.value];
      return Ok(next);
    }

    method DeleteRecord(pk: nat, kind: RecordKind, name: NameHmac, ifMatch: nat, w: RecordWrite, ctx: Ctx,
                        limits: Limits)
      returns (answer: Result<nat, StoreError>)
      requires Valid()
      modifies this
      ensures Valid()
      ensures Outcome(State(), answer, [])
          == Database.DeleteRecord(old(State()), pk, kind, name, ifMatch, w, ctx, limits)
    {
      hide Inv, AppendAudit, Stored, FreedBy, Refuse;
      DeleteRecordInv(State(), pk, kind, name, ifMatch, w, ctx, limits);
      if w.valueCt.Some? {
        return Err(Malformed);
      }
      var loaded := LoadVault(State(), pk);
      if loaded.Err? {
        return Err(loaded.error);
      }
      var v, refused := loaded.value, Event(ctx.actor, DeleteAction(kind), Some(name), None, Refused);
      var head := v.HeadOf(kind, name);
      if head.None? || head.value.tombstone {
        return Err(NotFound);
      }
      var current := head.value.version;
      if w.generation != v.generation {
        answer := CommitRefusal(pk, v, refused, ctx.now, StaleGeneration);
        return;
      }
      if ifMatch != current {
        answer := CommitRefusal(pk, v, refused, ctx.now, PreconditionFailed(Some(current)));
        return;
      }
      var next: nat := current + 1;
      if w.version != next {
        answer := CommitRefusal(pk, v, refused, ctx.now, VersionMismatch(w.version, next));
        return;
      }
      var spent, freed := v.bytesUsed + |w.nameCt|, FreedBy(v.Records(kind), name, limits.Versions(kind));
      var total := if spent < freed then 0 else spent - freed;
      var stored := StoreVersion(v, kind, name, next, WrittenRow(w, ctx.actor), limits.Versions(kind), total);
      if stored.Err? {
        return Err(stored.error);
      }
      var audited := AppendAudit(stored.value,
        WriteEvent(ctx.actor, DeleteAction(kind), Some(name), next, None), ctx.now);
      if audited.Err? {
        return Err(audited.error);
      }
      vaults := vaults[pk := audited.value];
      return Ok(next);
    }

    method PutChildren(pk: nat, pre: Precondition, blob: ChildrenBlob, ctx: Ctx, limits: Limits)
      returns (answer: Result<nat, StoreError>)
      requires Valid()
      modifies this
      ensures Valid()
      ensures Outcome(State(), answer, []) == Database.PutChildren(old(State()), pk, pre, blob, ctx, limits)
    {
      hide Inv, AppendAudit, Refuse;
      PutChildrenInv(State(), pk, pre, blob, ctx, limits);
      var loaded := LoadVault(State(), pk);
      if loaded.Err? {
        return Err(loaded.error);
      }
      var v, refused := loaded.value, Event(ctx.actor, ChildrenWrite, None, None, Refused);
      if |blob.ct| > limits.maxConfigBytes {
        answer := CommitRefusal(pk, v, refused, ctx.now, QuotaExceeded(ValueSize));
        return;
      }
      var slot := AssignedChildren(pre, if v.children.Some? then Some(v.children.value.version) else None);
      if slot.Err? {
        answer := CommitRefusal(pk, v, refused, ctx.now, slot.error);
        return;
      }
      if blob.version != slot.value {
        answer := CommitRefusal(pk, v, refused, ctx.now, VersionMismatch(blob.version, slot.value));
        return;
      }
      var audited := AppendAudit(v.(children := Some(blob)),
        WriteEvent(ctx.actor, ChildrenWrite, None, slot.value, Some(Sha256(blob.ct))), ctx.now);
      if audited.Err? {
        return Err(audited.error);
      }
      vaults := vaults[pk := audited.value];
      return Ok(slot.value);
    }

    method ApplyRotation(pk: nat, r: RotationRequest, ctx: Ctx, hook: bool)
      returns (answer: Result<nat, StoreError>, journaled: seq<JournalRecord>)
      requires Valid()
      modifies this
      ensures Valid()
      ensures Outcome(State(), answer, journaled) == Database.ApplyRotation(old(State()), pk, r, ctx, hook)
    {
      hide Inv, Rotated, StrictlyAccepted;
      ApplyRotationInv(State(), pk, r, ctx, hook);
      journaled := [];
      var loaded := LoadVault(State(), pk);
      if loaded.Err? {
        answer := Err(NotFound);
        return;
      }
      var v := loaded.value;
      if v.generation != r.fromGeneration || v.revision != r.fromRevision {
        answer := Err(Conflict);
        return;
      }
      if !StrictlyAccepted(State(), pk, v, r) {
        answer := Err(IncompleteRotation);
        return;
      }
      var tx := RotateTables(State(), pk, v, r, ctx);
      if tx.Err? {
        answer := Err(tx.error);
        return;
      }
      if !hook {
        answer := Err(JournalFailed);
        return;
      }
      journaled := [JournalRecord(lastApplied + 1, ctx.now, Rotation(v.id, ctx.actor, r))];
      Install(tx.value.(lastApplied := tx.value.lastApplied + 1));
      answer := Ok(r.fromGeneration + 1);
    }

    method DeleteVault(pk: nat, now: int, hook: bool) returns (answer: Result<(), StoreError>,
                       journaled: seq<JournalRecord>)
      requires Valid()
      modifies this
      ensures Valid()
      ensures Outcome(State(), answer, journaled) == Database.DeleteVault(old(State()), pk, now, hook)
    {
      hide Inv, WithoutVault;
      DeleteVaultInv(State(), pk, now, hook);
      journaled := [];
      var loaded := LoadVault(State(), pk);
      if loaded.Err? {
        answer := Err(NotFound);
        return;
      }
      if !hook {
        answer := Err(JournalFailed);
        return;
      }
      journaled := [JournalRecord(lastApplied + 1, now, Deletion(loaded.value.id))];
      Install(WithoutVault(State(), pk).(lastApplied := lastApplied + 1));
      answer := Ok(());
    }

    method Spend(key: SpentKey, expiresAt: int, now: int) returns (answer: Result<(), StoreError>)
      requires Valid()
      modifies this
      ensures Valid()
      ensures Outcome(State(), answer, []) == Database.Spend(old(State()), key, expiresAt, now)
    {
      hide Inv;
      SpendInv(State(), key, expiresAt, now);
      spent := map k | k in spent && spent[k] >= now :: spent[k];
      if key in spent {
        return Err(Spent);
      }
      spent := spent[key := expiresAt];
      return Ok(());
    }

    /** Re-apply one journal record. A record this database admits keeps it valid. */
    method Replay(record: JournalRecord) returns (answer: Result<bool, StoreError>)
      requires Valid()
      modifies this
      ensures Outcome(State(), answer, []) == Database.Replay(old(State()), record)
      ensures record.seqNo <= old(lastApplied) || Admissible(old(State()), record) ==> Valid()
    {
      hide Inv, ReplayOp, Admissible;
      if Admissible(State(), record) {
        ReplayInv(State(), record);
      }
      if record.seqNo <= lastApplied {
        return Ok(false);
      }
      var done := ReplayTables(State(), record);
      if done.Err? {
        return Err(done.error);
      }
      Install(done.value.tx.(lastApplied := record.seqNo));
      return done.value.answer;
    }

    /** Catch up with the journal: replay every record past the counter, in order. A journal each of whose
    records is admissible in its turn never fails. */
    method ReplayJournal(journal: seq<JournalRecord>) returns (replayed: nat)
      requires Valid() && Restoration.Stepwise(State(), journal)
      modifies this
      ensures Valid() && Restoration.ReplayAll(old(State()), journal) == Ok(State())
      ensures replayed == if |journal| <= old(lastApplied) then 0 else |journal| - old(lastApplied)
    {
      hide Inv, Database.Replay, Admissible;
      ghost var start := State();
      assert Valid();
      var from := if |journal| <= lastApplied then |journal| else lastApplied;
      StepwiseAt(start, journal, from);
      Restoration.StepwiseSkips(start, journal[..from]);
      replayed := 0;
      for i := from to |journal|
        invariant Valid() && Restoration.ReplayAll(start, journal[..i]) == Ok(State())
        invariant replayed == i - from
      {
        StepwiseAt(start, journal, i + 1);
        assert journal[..i + 1][..i] == journal[..i];
        var answer := Replay(journal[i]);
        replayed := replayed + 1;
      }
      assert journal[..|journal|] == journal;
    }
  }

  /** Every prefix of such a journal is one. */
  lemma {:induction false} StepwiseAt(db: Db, journal: seq<JournalRecord>, n: nat)
    requires Restoration.Stepwise(db, journal) && n <= |journal|
    ensures Restoration.Stepwise(db, journal[..n])
    decreases |journal| - n
  {
    hide Inv, Admissible, Database.Replay;
    if n == |journal| {
      assert journal[..n] == journal;
    } else {
      StepwiseAt(db, journal, n + 1);
      assert journal[..n + 1][..n] == journal[..n];
    }
  }

  lemma DeletesTheNamed(db: Db, pk: nat, record: JournalRecord)
    requires Inv(db) && record.op.Deletion? && Named(db, pk, record.op.vaultId)
    ensures ReplayOp(db, record) == Ok(Done(WithoutVault(db, pk), Ok(true)))
  {
    hide Inv, WithoutVault;
    var qk :| Named(db, qk, record.op.vaultId) && ReplayOp(db, record) == Ok(Done(WithoutVault(db, qk), Ok(true)));
    Restoration.VaultNamedOnce(db, pk, qk, record.op.vaultId);
  }
}
