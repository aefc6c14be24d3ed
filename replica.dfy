/**
 * One replica of a transfer-validating group (AT2 style): it validates debit
 * requests and signs them (phase 1), registers debits that carry the group's
 * agreement proof (phase 2), credits recipients of proofs from any known group
 * (phase 3), and mutates its state only by applying events.
 *
 * The decision commands read the replica and change nothing, so they are
 * functions of a `ReplicaState` value (the fields of the source's struct).
 * Resolving the key of a propagated proof searches a set in no fixed order,
 * so that command and those built on it are methods that change nothing.
 * Mutation is the class `Replica` at the end, whose `Apply` is specified by
 * `ApplyEvent` and whose `FromHistory` is a left fold of it.
 */
module Replica {
  import opened DataTypes
  import Wallets

  const SerialiseTransferMsg: string := "Could not serialise transfer"
  const SerialiseProofMsg: string := "Could not serialise proof"
  const SameSenderRecipientMsg: string := "Sender and recipient are the same."
  const ZeroValueMsg: string := "Cannot send zero value transactions"
  const CounterShouldBeZeroMsg: string := "out of order msg, actor's counter should be 0"
  const PreviousCountMsg: string := "out of order msg, previous count: "
  const NonSequentialMsg: string := "Non-sequential operation"
  const TestSameWalletMsg: string := "Sending from and to the same wallet"

  /** The fields of a replica: its key material, the known foreign groups, the wallets and the pending debit counters. */
  datatype ReplicaState = ReplicaState(
    id: PublicKeyShare,
    secretKey: SecretKeyShare,
    keyIndex: nat,
    peerReplicas: PublicKeySet,
    otherGroups: set<PublicKeySet>,
    wallets: map<PublicKey, Wallets.Wallet>,
    pendingDebits: map<PublicKey, nat>)

  /** The state `from_history` starts from: a snapshot with empty collections. */
  function EmptyState(crypto: Crypto, secretKey: SecretKeyShare, keyIndex: nat, peerReplicas: PublicKeySet): ReplicaState
  {
    ReplicaState(crypto.publicKeyShare(secretKey), secretKey, keyIndex, peerReplicas, {}, map[], map[])
  }

  /** Every wallet is stored under its own id. */
  predicate WalletsKeyed(st: ReplicaState)
  {
    forall k :: k in st.wallets ==> st.wallets[k].id == k
  }

  /** Two states agree on the key material, which nothing ever changes. */
  predicate SameKeys(st: ReplicaState, st': ReplicaState)
  {
    st'.id == st.id && st'.secretKey == st.secretKey && st'.keyIndex == st.keyIndex && st'.peerReplicas == st.peerReplicas
  }

  /** `after` keeps every wallet of `before`, with its history extended at the end. */
  predicate WalletsExtended(before: map<PublicKey, Wallets.Wallet>, after: map<PublicKey, Wallets.Wallet>)
  {
    forall k :: k in before ==> k in after && after[k].id == before[k].id && before[k].history <= after[k].history
  }

  // -----------------------------------------------------------------------
  // Queries
  // -----------------------------------------------------------------------

  function Balance(st: ReplicaState, walletId: PublicKey): (r: Option<int>)
    ensures r.Some? <==> walletId in st.wallets
    ensures r.Some? ==> r.value == Wallets.Sum(Wallets.Credits(st.wallets[walletId])) - Wallets.Sum(Wallets.Debits(st.wallets[walletId]))
  {
    if walletId in st.wallets then Some(Wallets.Balance(st.wallets[walletId])) else None
  }

  function CreditsSince(st: ReplicaState, walletId: PublicKey, index: nat): (r: Option<seq<Transfer>>)
    ensures r.Some? <==> walletId in st.wallets
    ensures r.Some? ==> var entries := Wallets.Credits(st.wallets[walletId]);
                        r.value == if index <= |entries| then entries[index..] else []
  {
    if walletId in st.wallets then Some(Wallets.CreditsSince(st.wallets[walletId], index)) else None
  }

  function DebitsSince(st: ReplicaState, walletId: PublicKey, index: nat): (r: Option<seq<Transfer>>)
    ensures r.Some? <==> walletId in st.wallets
    ensures r.Some? ==> var entries := Wallets.Debits(st.wallets[walletId]);
                        r.value == if index <= |entries| then entries[index..] else []
  {
    if walletId in st.wallets then Some(Wallets.DebitsSince(st.wallets[walletId], index)) else None
  }

  // -----------------------------------------------------------------------
  // Signing and verification
  // -----------------------------------------------------------------------

  /** The key a group signs with: the combined key of its key set. */
  function GroupPublicKey(crypto: Crypto, keys: PublicKeySet): PublicKey
  {
    Bls(crypto.groupKey(keys))
  }

  /** This replica's partial signature over a signed transfer. */
  function SignValidatedTransfer(crypto: Crypto, st: ReplicaState, signed: SignedTransfer): (r: Result<SignatureShare, Error>)
    ensures r.Ok? <==> crypto.serialize(SignedTransferBytes(signed)).Some?
    ensures r.Ok? ==> r.value.index == st.keyIndex && r.value.share == crypto.sign(st.secretKey, crypto.serialize(SignedTransferBytes(signed)).value)
    ensures r.Err? ==> r.error == NetworkOther(SerialiseTransferMsg)
  {
    match crypto.serialize(SignedTransferBytes(signed))
    case None => Err(NetworkOther(SerialiseTransferMsg))
    case Some(data) => Ok(SignatureShare(st.keyIndex, crypto.sign(st.secretKey, data)))
  }

  /** This replica's partial signature over a whole debit proof. */
  function SignProof(crypto: Crypto, st: ReplicaState, proof: DebitAgreementProof): (r: Result<SignatureShare, Error>)
    ensures r.Ok? <==> crypto.serialize(ProofBytes(proof)).Some?
    ensures r.Ok? ==> r.value.index == st.keyIndex && r.value.share == crypto.sign(st.secretKey, crypto.serialize(ProofBytes(proof)).value)
    ensures r.Err? ==> r.error == NetworkOther(SerialiseProofMsg)
  {
    match crypto.serialize(ProofBytes(proof))
    case None => Err(NetworkOther(SerialiseProofMsg))
    case Some(data) => Ok(SignatureShare(st.keyIndex, crypto.sign(st.secretKey, data)))
  }

  /** The sender's own signature over the transfer, checked against the sender's key. */
  function VerifyActorSignature(crypto: Crypto, signed: SignedTransfer): (r: Result<(), Error>)
    ensures r.Ok? <==> (crypto.serialize(TransferBytes(signed.transfer)).Some?
                        && crypto.verify(signed.From(), signed.actorSignature, crypto.serialize(TransferBytes(signed.transfer)).value))
    ensures r.Err? && crypto.serialize(TransferBytes(signed.transfer)).None? ==> r.error == NetworkOther(SerialiseTransferMsg)
    ensures r.Err? && crypto.serialize(TransferBytes(signed.transfer)).Some? ==> r.error == InvalidSignature
  {
    match crypto.serialize(TransferBytes(signed.transfer))
    case None => Err(NetworkOther(SerialiseTransferMsg))
    case Some(data) => if crypto.verify(signed.From(), signed.actorSignature, data) then Ok(()) else Err(InvalidSignature)
  }

  /** The bytes an aggregated debit signature is over: the encoded signed transfer. */
  function ProofData(crypto: Crypto, proof: DebitAgreementProof): Option<Bytes>
  {
    crypto.serialize(SignedTransferBytes(proof.signedTransfer))
  }

  /** Does the combined key of the group `keys` verify the proof's aggregated signature? */
  predicate GroupSigned(crypto: Crypto, keys: PublicKeySet, proof: DebitAgreementProof)
  {
    ProofData(crypto, proof).Some? && crypto.verify(GroupPublicKey(crypto, keys), proof.debitingReplicasSig, ProofData(crypto, proof).value)
  }

  /**
   * verify_registered_proof as written: when our group's key fails, the fallback
   * `f()` returns the failed result, so a recognised past key is never accepted.
   */
  function VerifyRegisteredProofAsWritten(crypto: Crypto, st: ReplicaState, proof: DebitAgreementProof, pastKeyOk: bool): (r: Result<(), Error>)
    ensures r.Ok? <==> GroupSigned(crypto, st.peerReplicas, proof)
  {
    match ProofData(crypto, proof)
    case None => Err(NetworkOther(SerialiseTransferMsg))
    case Some(data) =>
      if crypto.verify(GroupPublicKey(crypto, st.peerReplicas), proof.debitingReplicasSig, data) then Ok(())
      else if pastKeyOk then Err(InvalidSignature)
      else Err(InvalidSignature)
  }

  /**
   * verify_registered_proof as intended: a proof is ours when our group's key
   * verifies it or when the injected past-key check `pastKeyOk` (the value of
   * `f()`) recognises it.
   */
  function VerifyRegisteredProof(crypto: Crypto, st: ReplicaState, proof: DebitAgreementProof, pastKeyOk: bool): (r: Result<(), Error>)
    ensures r.Ok? <==> ProofData(crypto, proof).Some? && (GroupSigned(crypto, st.peerReplicas, proof) || pastKeyOk)
    ensures r.Err? && ProofData(crypto, proof).None? ==> r.error == NetworkOther(SerialiseTransferMsg)
    ensures r.Err? && ProofData(crypto, proof).Some? ==> r.error == InvalidSignature
  {
    match ProofData(crypto, proof)
    case None => Err(NetworkOther(SerialiseTransferMsg))
    case Some(data) =>
      if crypto.verify(GroupPublicKey(crypto, st.peerReplicas), proof.debitingReplicasSig, data) then Ok(())
      else if pastKeyOk then Ok(())
      else Err(InvalidSignature)
  }

  /** Some known foreign group verifies the proof's aggregated signature. */
  ghost predicate SignedByKnownGroup(crypto: Crypto, st: ReplicaState, proof: DebitAgreementProof)
  {
    exists g :: g in st.otherGroups && GroupSigned(crypto, g, proof)
  }

  /** A propagated proof can be attributed: our key, an injected past key, or a known group's key. */
  ghost predicate Resolvable(crypto: Crypto, st: ReplicaState, proof: DebitAgreementProof, pastKey: Option<PublicKey>)
  {
    ProofData(crypto, proof).Some?
    && (GroupSigned(crypto, st.peerReplicas, proof) || pastKey.Some? || SignedByKnownGroup(crypto, st, proof))
  }

  /**
   * `key` is a signer the replica may report for the proof: our group's key when
   * it verifies, else the injected past key when there is one, else the key of
   * some known group that verifies.
   */
  ghost predicate AcceptedSigner(crypto: Crypto, st: ReplicaState, proof: DebitAgreementProof, pastKey: Option<PublicKey>, key: PublicKey)
  {
    ProofData(crypto, proof).Some?
    && if GroupSigned(crypto, st.peerReplicas, proof) then key == GroupPublicKey(crypto, st.peerReplicas)
       else if pastKey.Some? then key == pastKey.value
       else exists g :: g in st.otherGroups && GroupSigned(crypto, g, proof) && key == GroupPublicKey(crypto, g)
  }

  /** The error of an unresolvable proof: an encoding failure, else a bad signature. */
  function ResolutionError(crypto: Crypto, proof: DebitAgreementProof): Error
  {
    if ProofData(crypto, proof).None? then NetworkOther(SerialiseTransferMsg) else InvalidSignature
  }

  /** Search the known groups, in whatever order the set yields them, for one whose key verifies `sig` over `data`. */
  method FindForeignSigner(crypto: Crypto, groups: set<PublicKeySet>, sig: Signature, data: Bytes) returns (r: Option<PublicKey>)
    ensures r.Some? ==> exists g :: g in groups && r.value == GroupPublicKey(crypto, g) && crypto.verify(r.value, sig, data)
    ensures r.None? ==> forall g :: g in groups ==> !crypto.verify(GroupPublicKey(crypto, g), sig, data)
  {
    var remaining := groups;
    while remaining != {}
      invariant remaining <= groups
      invariant forall g :: g in groups && g !in remaining ==> !crypto.verify(GroupPublicKey(crypto, g), sig, data)
      decreases remaining
    {
      var g :| g in remaining;
      var key := GroupPublicKey(crypto, g);
      if crypto.verify(key, sig, data) {
        return Some(key);
      }
      remaining := remaining - {g};
    }
    return None;
  }

  /** verify_propagated_proof: attribute a proof to the key that signed it, or fail. */
  method VerifyPropagatedProof(crypto: Crypto, st: ReplicaState, proof: DebitAgreementProof, pastKey: Option<PublicKey>)
    returns (r: Result<PublicKey, Error>)
    ensures r.Ok? <==> Resolvable(crypto, st, proof, pastKey)
    ensures r.Ok? ==> AcceptedSigner(crypto, st, proof, pastKey, r.value)
    ensures r.Err? ==> r.error == ResolutionError(crypto, proof)
  {
    match ProofData(crypto, proof) {
      case None =>
        return Err(NetworkOther(SerialiseTransferMsg));
      case Some(data) =>
        var ourKey := GroupPublicKey(crypto, st.peerReplicas);
        if crypto.verify(ourKey, proof.debitingReplicasSig, data) {
          return Ok(ourKey);
        }
        if pastKey.Some? {
          return Ok(pastKey.value);
        }
        var found := FindForeignSigner(crypto, st.otherGroups, proof.debitingReplicasSig, data);
        if found.Some? {
          return Ok(found.value);
        }
        return Err(InvalidSignature);
    }
  }

  // -----------------------------------------------------------------------
  // Commands
  // -----------------------------------------------------------------------

  /** The counter the next validated debit of `actor` must carry: 0 at first, then one past the pending one. */
  function ExpectedCounter(st: ReplicaState, actor: PublicKey): nat
  {
    if actor in st.pendingDebits then st.pendingDebits[actor] + 1 else 0
  }

  /** The error for a debit request whose counter is not the expected one. */
  function OutOfOrderError(st: ReplicaState, actor: PublicKey): Error
  {
    if actor in st.pendingDebits then Message(PreviousCountMsg + NatToString(st.pendingDebits[actor]))
    else Message(CounterShouldBeZeroMsg)
  }

  /** The request is signed by its sender, is not a self-transfer and moves some money. */
  predicate WellFormedRequest(crypto: Crypto, signed: SignedTransfer)
  {
    VerifyActorSignature(crypto, signed).Ok? && signed.From() != signed.To() && signed.transfer.amount > 0
  }

  /** Phase 1: validate a debit request and sign it. */
  function Validate(crypto: Crypto, st: ReplicaState, signed: SignedTransfer): (r: Outcome<TransferValidated>)
    // the sender's signature is checked before anything else
    ensures VerifyActorSignature(crypto, signed).Err? ==> r == Failed(InvalidSignature)
    ensures VerifyActorSignature(crypto, signed).Ok? && signed.From() == signed.To() ==> r == Failed(Message(SameSenderRecipientMsg))
    ensures r.Rejected? <==> VerifyActorSignature(crypto, signed).Ok? && signed.From() != signed.To() && signed.transfer.amount == 0
    ensures r.Rejected? ==> r.reason == Unexpected(ZeroValueMsg)
    ensures WellFormedRequest(crypto, signed) && signed.From() !in st.wallets ==> r == Failed(NoSuchSender)
    // the pending-debit gate
    ensures WellFormedRequest(crypto, signed) && signed.From() in st.wallets
            && signed.transfer.id.counter != ExpectedCounter(st, signed.From())
            ==> r == Failed(OutOfOrderError(st, signed.From()))
    // the balance check, against the registered balance only
    ensures r == Failed(InsufficientBalance) <==>
              WellFormedRequest(crypto, signed) && signed.From() in st.wallets
              && signed.transfer.id.counter == ExpectedCounter(st, signed.From())
              && signed.transfer.amount > Wallets.Balance(st.wallets[signed.From()])
    ensures r.Success? <==>
              WellFormedRequest(crypto, signed) && signed.From() in st.wallets
              && signed.transfer.id.counter == ExpectedCounter(st, signed.From())
              && signed.transfer.amount <= Wallets.Balance(st.wallets[signed.From()])
              && SignValidatedTransfer(crypto, st, signed).Ok?
    ensures WellFormedRequest(crypto, signed) && signed.From() in st.wallets
            && signed.transfer.id.counter == ExpectedCounter(st, signed.From())
            && signed.transfer.amount <= Wallets.Balance(st.wallets[signed.From()])
            && SignValidatedTransfer(crypto, st, signed).Err?
            ==> r == Failed(InvalidSignature)
    ensures r.Success? ==> r.event == TransferValidated(signed, SignValidatedTransfer(crypto, st, signed).value, st.peerReplicas)
    ensures !r.NoChange?
  {
    var t := signed.transfer;
    var from := signed.From();
    if VerifyActorSignature(crypto, signed).Err? then Failed(InvalidSignature)
    else if t.id.actor == t.to then Failed(Message(SameSenderRecipientMsg))
    else if t.amount == 0 then Rejected(Unexpected(ZeroValueMsg))
    else if from !in st.wallets then Failed(NoSuchSender)
    else if from !in st.pendingDebits && t.id.counter != 0 then Failed(Message(CounterShouldBeZeroMsg))
    else if from in st.pendingDebits && t.id.counter != st.pendingDebits[from] + 1 then
      Failed(Message(PreviousCountMsg + NatToString(st.pendingDebits[from])))
    else
      match Balance(st, from)
      case None => Failed(NoSuchSender)
      case Some(balance) =>
        if t.amount > balance then Failed(InsufficientBalance)
        else
          match SignValidatedTransfer(crypto, st, signed)
          case Err(_) => Failed(InvalidSignature)
          case Ok(share) => Success(TransferValidated(signed, share, st.peerReplicas))
  }

  /** The unauthenticated issuance path: only a self-transfer is refused; no signature, sender or balance check. */
  function TestValidateTransfer(crypto: Crypto, st: ReplicaState, signed: SignedTransfer): (r: Outcome<TransferValidated>)
    ensures signed.From() == signed.To() ==> r == Failed(Message(TestSameWalletMsg))
    ensures signed.From() != signed.To() && SignValidatedTransfer(crypto, st, signed).Err? ==> r == Failed(InvalidSignature)
    ensures r.Success? <==> signed.From() != signed.To() && SignValidatedTransfer(crypto, st, signed).Ok?
    ensures r.Success? ==> r.event == TransferValidated(signed, SignValidatedTransfer(crypto, st, signed).value, st.peerReplicas)
    ensures r.Success? || r == Failed(Message(TestSameWalletMsg)) || r == Failed(InvalidSignature)
  {
    if signed.From() == signed.To() then Failed(Message(TestSameWalletMsg))
    else
      match SignValidatedTransfer(crypto, st, signed)
      case Err(_) => Failed(InvalidSignature)
      case Ok(share) => Success(TransferValidated(signed, share, st.peerReplicas))
  }

  /**
   * Phase 2: register a debit that carries our group's agreement, in the
   * sender's debit order. The proof check is the corrected
   * `VerifyRegisteredProof`; `RegisterAsWritten` is the command with the check
   * as written.
   */
  function Register(crypto: Crypto, st: ReplicaState, proof: DebitAgreementProof, pastKeyOk: bool): (r: Outcome<TransferRegistered>)
    ensures VerifyRegisteredProof(crypto, st, proof, pastKeyOk).Err? ==> r == Failed(InvalidSignature)
    ensures VerifyRegisteredProof(crypto, st, proof, pastKeyOk).Ok? && proof.From() !in st.wallets ==> r == Failed(NoSuchSender)
    ensures r.Success? <==>
              VerifyRegisteredProof(crypto, st, proof, pastKeyOk).Ok? && proof.From() in st.wallets
              && Wallets.IsSequential(st.wallets[proof.From()], proof.signedTransfer.transfer) == Ok(true)
    ensures r.Success? ==> r.event == TransferRegistered(proof)
    ensures VerifyRegisteredProof(crypto, st, proof, pastKeyOk).Ok? && proof.From() in st.wallets
            && Wallets.IsSequential(st.wallets[proof.From()], proof.signedTransfer.transfer) == Ok(false)
            ==> r == Failed(Message(NonSequentialMsg))
    ensures !r.NoChange? && !r.Rejected?
  {
    if VerifyRegisteredProof(crypto, st, proof, pastKeyOk).Err? then Failed(InvalidSignature)
    else if proof.From() !in st.wallets then Failed(NoSuchSender)
    else
      match Wallets.IsSequential(st.wallets[proof.From()], proof.signedTransfer.transfer)
      case Ok(isSequential) =>
        if isSequential then Success(TransferRegistered(proof)) else Failed(Message(NonSequentialMsg))
      case Err(_) => Failed(InvalidOperation)
  }

  /**
   * register as written: the same steps as `Register`, with the proof check
   * `VerifyRegisteredProofAsWritten`, which ignores the past-key answer.
   */
  function RegisterAsWritten(crypto: Crypto, st: ReplicaState, proof: DebitAgreementProof, pastKeyOk: bool): (r: Outcome<TransferRegistered>)
    ensures !GroupSigned(crypto, st.peerReplicas, proof) ==> r == Failed(InvalidSignature)
    ensures r.Success? <==>
              GroupSigned(crypto, st.peerReplicas, proof) && proof.From() in st.wallets
              && Wallets.IsSequential(st.wallets[proof.From()], proof.signedTransfer.transfer) == Ok(true)
  {
    if VerifyRegisteredProofAsWritten(crypto, st, proof, pastKeyOk).Err? then Failed(InvalidSignature)
    else if proof.From() !in st.wallets then Failed(NoSuchSender)
    else
      match Wallets.IsSequential(st.wallets[proof.From()], proof.signedTransfer.transfer)
      case Ok(isSequential) =>
        if isSequential then Success(TransferRegistered(proof)) else Failed(Message(NonSequentialMsg))
      case Err(_) => Failed(InvalidOperation)
  }

  /** The recipient's wallet already holds a transfer with the proof's id. */
  predicate AlreadyCredited(st: ReplicaState, proof: DebitAgreementProof)
  {
    proof.To() in st.wallets && Wallets.Contains(st.wallets[proof.To()], proof.Id())
  }

  /** Phase 3: credit the recipient of a proof from any known group, once per transfer id. */
  method ReceivePropagated(crypto: Crypto, st: ReplicaState, proof: DebitAgreementProof, pastKey: Option<PublicKey>)
    returns (o: Outcome<TransferPropagated>)
    // the signature is resolved before anything else
    ensures !Resolvable(crypto, st, proof, pastKey) ==> o == Failed(ResolutionError(crypto, proof))
    // idempotent: a duplicate is no change
    ensures Resolvable(crypto, st, proof, pastKey) && AlreadyCredited(st, proof) ==> o == NoChange
    ensures Resolvable(crypto, st, proof, pastKey) && !AlreadyCredited(st, proof) && SignProof(crypto, st, proof).Err?
            ==> o == Failed(InvalidSignature)
    ensures o.Success? <==> Resolvable(crypto, st, proof, pastKey) && !AlreadyCredited(st, proof) && SignProof(crypto, st, proof).Ok?
    ensures o.Success? ==> o.event.debitProof == proof && o.event.creditingReplicaSig == SignProof(crypto, st, proof).value
                           && AcceptedSigner(crypto, st, proof, pastKey, o.event.debitingReplicas)
    ensures !o.Rejected?
  {
    var resolved := VerifyPropagatedProof(crypto, st, proof, pastKey);
    if resolved.Err? {
      return Failed(resolved.error);
    }
    var debitingReplicas := resolved.value;
    var alreadyExists := proof.To() in st.wallets && Wallets.Contains(st.wallets[proof.To()], proof.Id());
    if alreadyExists {
      return NoChange;
    }
    match SignProof(crypto, st, proof) {
      case Err(_) =>
        return Failed(InvalidSignature);
      case Ok(creditingReplicaSig) =>
        return Success(TransferPropagated(proof, debitingReplicas, creditingReplicaSig));
    }
  }

  /** The one creation of money: phase 3 on a replica that has no wallet yet. */
  method Genesis(crypto: Crypto, st: ReplicaState, proof: DebitAgreementProof, pastKey: Option<PublicKey>)
    returns (o: Outcome<TransferPropagated>)
    ensures st.wallets != map[] ==> o == Failed(InvalidOperation)
    ensures st.wallets == map[] && !Resolvable(crypto, st, proof, pastKey) ==> o == Failed(ResolutionError(crypto, proof))
    ensures st.wallets == map[] && Resolvable(crypto, st, proof, pastKey) && SignProof(crypto, st, proof).Err?
            ==> o == Failed(InvalidSignature)
    ensures o.Success? <==> st.wallets == map[] && Resolvable(crypto, st, proof, pastKey) && SignProof(crypto, st, proof).Ok?
    ensures o.Success? ==> o.event.debitProof == proof && o.event.creditingReplicaSig == SignProof(crypto, st, proof).value
                           && AcceptedSigner(crypto, st, proof, pastKey, o.event.debitingReplicas)
    ensures !o.NoChange? && !o.Rejected?
  {
    if st.wallets != map[] {
      return Failed(InvalidOperation);
    }
    o := ReceivePropagated(crypto, st, proof, pastKey);
  }

  /** Learn the key set of another group, once. */
  function AddKnownGroup(st: ReplicaState, group: PublicKeySet): (r: Outcome<KnownGroupAdded>)
    ensures r == Failed(DataExists) <==> group in st.otherGroups
    ensures r == Failed(DataExists) || r == Success(KnownGroupAdded(group))
  {
    if group in st.otherGroups then Failed(DataExists) else Success(KnownGroupAdded(group))
  }

  // -----------------------------------------------------------------------
  // Mutation
  // -----------------------------------------------------------------------

  /** The state after one event, or the error that stops it; no validation happens here. */
  function ApplyEvent(st: ReplicaState, e: ReplicaEvent): (r: Result<ReplicaState, Error>)
    ensures r.Ok? ==> SameKeys(st, r.value)
    ensures r.Ok? ==> st.otherGroups <= r.value.otherGroups && st.pendingDebits.Keys <= r.value.pendingDebits.Keys
    ensures r.Ok? ==> WalletsExtended(st.wallets, r.value.wallets)
  {
    match e
    case GroupAdded(ev) =>
      Ok(st.(otherGroups := st.otherGroups + {ev.group}))
    case Validated(ev) =>
      var t := ev.signedTransfer.transfer;
      Ok(st.(pendingDebits := st.pendingDebits[t.id.actor := t.id.counter]))
    case Registered(ev) =>
      var t := ev.debitProof.signedTransfer.transfer;
      if t.id.actor !in st.wallets then Err(Message(""))
      else
        (match Wallets.Append(st.wallets[t.id.actor], t)
         case Err(err) => Err(err)
         case Ok(w) => Ok(st.(wallets := st.wallets[t.id.actor := w])))
    case Propagated(ev) =>
      var t := ev.debitProof.signedTransfer.transfer;
      var current := if t.to in st.wallets then st.wallets[t.to] else Wallets.New(t.to);
      match Wallets.Append(current, t)
      case Err(err) => Err(err)
      case Ok(w) => Ok(st.(wallets := st.wallets[t.to := w]))
  }

  /** Left fold of `ApplyEvent` over a history, stopping at the first error. */
  function ApplyAll(st: ReplicaState, events: seq<ReplicaEvent>): (r: Result<ReplicaState, Error>)
    ensures r.Ok? ==> SameKeys(st, r.value) && WalletsExtended(st.wallets, r.value.wallets)
    decreases |events|
  {
    if events == [] then Ok(st)
    else
      match ApplyEvent(st, events[0])
      case Err(err) => Err(err)
      case Ok(next) => ApplyAll(next, events[1..])
  }

  /** A replica whose state changes only by applying events. */
  class Replica {
    const id: PublicKeyShare
    const secretKey: SecretKeyShare
    const keyIndex: nat
    const peerReplicas: PublicKeySet
    var otherGroups: set<PublicKeySet>
    var wallets: map<PublicKey, Wallets.Wallet>
    var pendingDebits: map<PublicKey, nat>

    /** The replica's fields as a value, the argument of the decision commands. */
    function State(): ReplicaState
      reads this
    {
      ReplicaState(id, secretKey, keyIndex, peerReplicas, otherGroups, wallets, pendingDebits)
    }

    /** A replica from its current state; its id is the public share of its secret share. */
    constructor FromSnapshot(crypto: Crypto, secretKey: SecretKeyShare, keyIndex: nat, peerReplicas: PublicKeySet,
                             otherGroups: set<PublicKeySet>, wallets: map<PublicKey, Wallets.Wallet>,
                             pendingDebits: map<PublicKey, nat>)
      ensures State() == ReplicaState(crypto.publicKeyShare(secretKey), secretKey, keyIndex, peerReplicas,
                                      otherGroups, wallets, pendingDebits)
    {
      this.id := crypto.publicKeyShare(secretKey);
      this.secretKey := secretKey;
      this.keyIndex := keyIndex;
      this.peerReplicas := peerReplicas;
      this.otherGroups := otherGroups;
      this.wallets := wallets;
      this.pendingDebits := pendingDebits;
    }

    /** Apply one event in place; on an error nothing changes. */
    method Apply(e: ReplicaEvent) returns (r: Result<(), Error>)
      modifies this
      ensures r.Ok? <==> ApplyEvent(old(State()), e).Ok?
      ensures r.Ok? ==> State() == ApplyEvent(old(State()), e).value
      ensures r.Err? ==> State() == old(State()) && r.error == ApplyEvent(old(State()), e).error
    {
      match e {
        case GroupAdded(ev) =>
          otherGroups := otherGroups + {ev.group};
          r := Ok(());
        case Validated(ev) =>
          var t := ev.signedTransfer.transfer;
          pendingDebits := pendingDebits[t.id.actor := t.id.counter];
          r := Ok(());
        case Registered(ev) =>
          var t := ev.debitProof.signedTransfer.transfer;
          if t.id.actor !in wallets {
            return Err(Message(""));
          }
          var appended := Wallets.Append(wallets[t.id.actor], t);
          if appended.Err? {
            return Err(appended.error);
          }
          wallets := wallets[t.id.actor := appended.value];
          r := Ok(());
        case Propagated(ev) =>
          var t := ev.debitProof.signedTransfer.transfer;
          // creates the recipient's wallet if it does not exist
          var current := if t.to in wallets then wallets[t.to] else Wallets.New(t.to);
          var appended := Wallets.Append(current, t);
          if appended.Err? {
            return Err(appended.error);
          }
          wallets := wallets[t.to := appended.value];
          r := Ok(());
      }
    }

    /** Rebuild a replica by applying a history of events, in order, to an empty one. */
    static method FromHistory(crypto: Crypto, secretKey: SecretKeyShare, keyIndex: nat, peerReplicas: PublicKeySet,
                              events: seq<ReplicaEvent>) returns (r: Result<Replica, Error>)
      ensures r.Ok? <==> ApplyAll(EmptyState(crypto, secretKey, keyIndex, peerReplicas), events).Ok?
      ensures r.Ok? ==> fresh(r.value) && r.value.State() == ApplyAll(EmptyState(crypto, secretKey, keyIndex, peerReplicas), events).value
      ensures r.Err? ==> r.error == ApplyAll(EmptyState(crypto, secretKey, keyIndex, peerReplicas), events).error
    {
      var instance := new Replica.FromSnapshot(crypto, secretKey, keyIndex, peerReplicas, {}, map[], map[]);
      ghost var start := instance.State();
      var i := 0;
      while i < |events|
        invariant 0 <= i <= |events|
        invariant fresh(instance)
        invariant ApplyAll(instance.State(), events[i..]) == ApplyAll(start, events)
      {
        assert events[i..][1..] == events[i + 1..];
        var applied := instance.Apply(events[i]);
        if applied.Err? {
          return Err(applied.error);
        }
        i := i + 1;
      }
      return Ok(instance);
    }
  }
}
