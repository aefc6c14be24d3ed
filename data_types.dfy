/**
 * The values a transfer replica handles: keys, signatures, transfers, proofs,
 * the four replica events, the error kinds and the four-way command outcome.
 *
 * Keys and signatures are opaque: the replica only compares them and hands
 * them to the cryptographic capability below, so each is a wrapper around an
 * abstract number. Amounts (`Money`) and counters (`u64`) are unbounded `nat`s.
 */
module DataTypes {

  datatype Option<+T> = None | Some(value: T)

  datatype Result<+R, +E> = Ok(value: R) | Err(error: E)

  newtype byte = x: int | 0 <= x < 256

  /** The canonical byte encoding of a payload, as produced by bincode. */
  type Bytes = seq<byte>

  datatype BlsPublicKey = BlsPublicKey(raw: nat)

  /** A wallet identity or a signing key; `Bls` wraps the combined key of a replica group. */
  datatype PublicKey = Bls(group: BlsPublicKey) | Key(raw: nat)

  datatype PublicKeySet = PublicKeySet(raw: nat)
  datatype PublicKeyShare = PublicKeyShare(raw: nat)
  datatype SecretKeyShare = SecretKeyShare(raw: nat)
  datatype Signature = Signature(raw: nat)
  datatype BlsSignatureShare = BlsSignatureShare(raw: nat)

  /** One replica's partial signature, tagged with its index in the group. */
  datatype SignatureShare = SignatureShare(index: nat, share: BlsSignatureShare)

  /** The globally unique id of a transfer: the sending actor and its local counter. */
  datatype TransferId = TransferId(actor: PublicKey, counter: nat)

  datatype Transfer = Transfer(id: TransferId, to: PublicKey, amount: nat)

  datatype SignedTransfer = SignedTransfer(transfer: Transfer, actorSignature: Signature)
  {
    function From(): PublicKey { transfer.id.actor }
    function To(): PublicKey { transfer.to }
  }

  /** A signed transfer with the aggregated signature of a quorum of some replica group. */
  datatype DebitAgreementProof = DebitAgreementProof(signedTransfer: SignedTransfer, debitingReplicasSig: Signature)
  {
    function From(): PublicKey { signedTransfer.transfer.id.actor }
    function To(): PublicKey { signedTransfer.transfer.to }
    function Id(): TransferId { signedTransfer.transfer.id }
  }

  datatype TransferValidated = TransferValidated(signedTransfer: SignedTransfer, replicaSignature: SignatureShare, replicas: PublicKeySet)

  datatype TransferRegistered = TransferRegistered(debitProof: DebitAgreementProof)

  datatype TransferPropagated = TransferPropagated(debitProof: DebitAgreementProof, debitingReplicas: PublicKey, creditingReplicaSig: SignatureShare)

  datatype KnownGroupAdded = KnownGroupAdded(group: PublicKeySet)

  /** The only inputs of the replica's mutation. */
  datatype ReplicaEvent =
    | GroupAdded(knownGroupAdded: KnownGroupAdded)
    | Validated(transferValidated: TransferValidated)
    | Registered(transferRegistered: TransferRegistered)
    | Propagated(transferPropagated: TransferPropagated)

  /** The error kinds the replica raises; `Message` is an error built from a text (`Error::from`). */
  datatype Error =
    | InvalidSignature
    | NoSuchSender
    | InsufficientBalance
    | InvalidOperation
    | DataExists
    | NetworkOther(msg: string)
    | Unexpected(msg: string)
    | Message(msg: string)

  /**
   * The result of a decision command: an event to apply, nothing to do
   * (an idempotent duplicate), a soft rejection, or a fatal error.
   */
  datatype Outcome<+T> = Success(event: T) | NoChange | Rejected(reason: Error) | Failed(error: Error)

  /** The payloads that are encoded before being signed or verified. */
  datatype Payload =
    | TransferBytes(transfer: Transfer)
    | SignedTransferBytes(signed: SignedTransfer)
    | ProofBytes(proof: DebitAgreementProof)

  /**
   * The cryptographic capability the replica calls but does not implement:
   * bincode serialisation (which may fail), signature verification, threshold
   * signing with a secret share, the public share of a secret share, and the
   * combined public key of a key set. Every model function takes it as a
   * parameter, so nothing is assumed about it.
   */
  datatype Crypto = Crypto(
    serialize: Payload -> Option<Bytes>,
    verify: (PublicKey, Signature, Bytes) -> bool,
    sign: (SecretKeyShare, Bytes) -> BlsSignatureShare,
    publicKeyShare: SecretKeyShare -> PublicKeyShare,
    groupKey: PublicKeySet -> BlsPublicKey)

  /** Decimal rendering of a counter, as `format!("{:?}", n)` prints a `u64`. */
  function NatToString(n: nat): (s: string)
    ensures |s| > 0
    ensures forall i :: 0 <= i < |s| ==> '0' <= s[i] <= '9'
    ensures DigitsValue(s) == n
  {
    if n < 10 then [DigitChar(n)]
    else
      var prefix := NatToString(n / 10);
      assert (prefix + [DigitChar(n % 10)])[..|prefix|] == prefix;
      prefix + [DigitChar(n % 10)]
  }

  function DigitChar(d: nat): (c: char)
    requires d < 10
    ensures '0' <= c <= '9' && c as int - '0' as int == d
  {
    "0123456789"[d]
  }

  /** The number a string of decimal digits spells, most significant digit first. */
  function DigitsValue(s: string): int
    decreases |s|
  {
    if s == [] then 0 else DigitsValue(s[..|s| - 1]) * 10 + (s[|s| - 1] as int - '0' as int)
  }
}
