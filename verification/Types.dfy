/** The values the vault exchanges and stores: identifiers, audit rows, requests and errors.

Ciphertexts are byte strings, because the store accounts for their lengths. Hashes are symbolic
terms, so two hashes are equal exactly when they hash the same thing. */
module Types {

  newtype byte = x: int | 0 <= x < 256
  type Bytes = seq<byte>

  datatype Option<+T> = None | Some(value: T)

  datatype Result<+T, +E> = Ok(value: T) | Err(error: E) {
    predicate IsFailure() {
      Err?
    }

    function PropagateFailure<U>(): Result<U, E>
      requires Err?
    {
      Err(error)
    }

    function Extract(): T
      requires Ok?
    {
      value
    }
  }

  datatype VaultId = VaultId(raw: Bytes)
  datatype TokenId = TokenId(raw: Bytes)
  datatype NameHmac = NameHmac(raw: Bytes)

  datatype RecordKind = Secret | Config
  datatype Scope = Meta | Append | ReadOnly | Admin | ConfigRead | ConfigWrite
  datatype Actor = Owner | Token(id: TokenId)

  datatype AuditAction =
    | VaultCreate | VaultRotate | VaultDelete | VaultExpire | ChildrenWrite
    | TokenMint | TokenRevoke | TokenReport | TokenList
    | SecretPut | SecretDelete | SecretRead
    | ConfigPut | ConfigDelete | ConfigFetch

  datatype AuditResult = Success | Refused

  datatype AuditEvent = AuditEvent(
    actor: Actor, action: AuditAction, name: Option<NameHmac>, subject: Option<TokenId>,
    result: AuditResult, version: nat, ctHash: Option<Digest>)

  /** `Genesis` is the all-zero hash every audit chain starts from. */
  datatype Digest =
    | Genesis
    | Sha256(data: Bytes)
    | RowDigest(seqNo: nat, ts: int, prev: Digest, event: AuditEvent)

  datatype AuditRow = AuditRow(seqNo: nat, ts: int, prev: Digest, hash: Digest, event: AuditEvent)

  datatype SignedBundle = SignedBundle(sealed: Bytes, sig: Bytes)
  datatype SignedDescriptor = SignedDescriptor(descriptor: Bytes, sig: Bytes)
  datatype ChildrenBlob = ChildrenBlob(version: nat, ct: Bytes, sig: Bytes)

  /** The caller's identity and the clock's reading, as a call has them. */
  datatype Ctx = Ctx(actor: Actor, now: int)

  datatype Limits = Limits(
    maxNames: nat, maxValueBytes: nat, maxVersions: nat, maxVaultBytes: nat, maxTokens: nat,
    maxConfigs: nat, maxConfigBytes: nat, maxConfigVersions: nat)
  {
    function MaxValue(kind: RecordKind): nat {
      match kind case Secret => maxValueBytes case Config => maxConfigBytes
    }

    function MaxLive(kind: RecordKind): nat {
      match kind case Secret => maxNames case Config => maxConfigs
    }

    function Versions(kind: RecordKind): nat {
      match kind case Secret => maxVersions case Config => maxConfigVersions
    }
  }

  datatype Quota = Names | ValueSize | VaultBytes | Tokens | Configs | ConfigSize

  datatype StoreError =
    | NotFound
    | Exists
    | PreconditionFailed(current: Option<nat>)
    | VersionMismatch(signedVersion: nat, assignedVersion: nat)
    | StaleGeneration
    | Conflict
    | IncompleteRotation
    | QuotaExceeded(quota: Quota)
    | Spent
    | JournalFailed
    | Malformed
    | Underflow

  /** `IfNoneMatch` creates or revives; `IfMatch(v)` updates live version `v`. */
  datatype Precondition = IfNoneMatch | IfMatch(version: nat)

  /** A signed record write; no value is a tombstone. */
  datatype RecordWrite = RecordWrite(
    nameCt: Bytes, valueCt: Option<Bytes>, generation: nat, version: nat, writtenAt: int, sig: Bytes)

  datatype NewVault = NewVault(
    id: VaultId, ownerSignPub: Bytes, ownerBoxPub: Bytes, descriptor: SignedDescriptor,
    ownerBundle: SignedBundle)

  datatype NewToken = NewToken(
    id: TokenId, authPub: Bytes, boxPub: Bytes, scope: Scope, expiresAt: int, bundle: SignedBundle,
    generation: nat, allowList: Option<seq<NameHmac>>)

  /** One retained version, re-encrypted to a new generation's keys. */
  datatype RotatedVersion = RotatedVersion(
    oldName: NameHmac, version: nat, name: NameHmac, nameCt: Bytes, valueCt: Option<Bytes>,
    writtenAt: int, sig: Bytes)

  datatype ResealedBundle = ResealedBundle(tokenId: TokenId, bundle: SignedBundle)

  datatype RotationRequest = RotationRequest(
    fromGeneration: nat, fromRevision: nat, descriptor: SignedDescriptor, ownerBundle: SignedBundle,
    secrets: seq<RotatedVersion>, configs: seq<RotatedVersion>, tokens: seq<ResealedBundle>,
    revoke: seq<TokenId>)

  datatype JournalOp =
    | Revocation(vaultId: VaultId, tokenIds: seq<TokenId>, actor: Actor, reported: bool)
    | Rotation(vaultId: VaultId, actor: Actor, request: RotationRequest)
    | Deletion(vaultId: VaultId)

  datatype JournalRecord = JournalRecord(seqNo: nat, ts: int, op: JournalOp)

  /** What a row records of its value; a deletion counts as the empty value. */
  function ValueHash(valueCt: Option<Bytes>): Digest {
    Sha256(if valueCt.Some? then valueCt.value else [])
  }
}
