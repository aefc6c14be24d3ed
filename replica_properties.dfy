/**
 * Properties that relate several replica operations: what applying the event
 * of a successful command does to the next decision, the ledger invariant
 * that decide-then-apply keeps, replay of a history, and a worked scenario.
 */
module ReplicaProperties {
  import opened DataTypes
  import Wallets
  import opened Replica

  // -----------------------------------------------------------------------
  // Phase 1: the pending-debit gate
  // -----------------------------------------------------------------------

  /** Applying a validation records its counter as pending and touches nothing else. */
  lemma ValidatedSetsPending(st: ReplicaState, ev: TransferValidated)
    ensures var t := ev.signedTransfer.transfer;
            ApplyEvent(st, Validated(ev)) == Ok(st.(pendingDebits := st.pendingDebits[t.id.actor := t.id.counter]))
  {
  }

  /** Re-applying the same validation is harmless: it writes the same counter again. */
  lemma ValidatedIdempotent(st: ReplicaState, ev: TransferValidated)
    ensures ApplyEvent(st, Validated(ev)).Ok?
    ensures ApplyEvent(ApplyEvent(st, Validated(ev)).value, Validated(ev)) == ApplyEvent(st, Validated(ev))
  {
    var t := ev.signedTransfer.transfer;
    var once := st.pendingDebits[t.id.actor := t.id.counter];
    assert once[t.id.actor := t.id.counter] == once;
  }

  /**
   * An accepted validation advances the sender's expected counter by exactly one
   * (from 0 when nothing was pending) and leaves every wallet, hence every
   * balance, as it was.
   */
  lemma ValidationAdvancesCounter(crypto: Crypto, st: ReplicaState, signed: SignedTransfer)
    requires Validate(crypto, st, signed).Success?
    ensures ApplyEvent(st, Validated(Validate(crypto, st, signed).event)).Ok?
    ensures var st' := ApplyEvent(st, Validated(Validate(crypto, st, signed).event)).value;
            && st'.pendingDebits[signed.From()] == signed.transfer.id.counter
            && ExpectedCounter(st', signed.From()) == ExpectedCounter(st, signed.From()) + 1
            && st'.wallets == st.wallets
            && st'.otherGroups == st.otherGroups
            && Balance(st', signed.From()) == Balance(st, signed.From())
  {
  }

  /** The same request validated again, after its event is applied, is out of order. */
  lemma ValidationNotRepeatable(crypto: Crypto, st: ReplicaState, signed: SignedTransfer)
    requires Validate(crypto, st, signed).Success?
    ensures var st' := ApplyEvent(st, Validated(Validate(crypto, st, signed).event)).value;
            Validate(crypto, st', signed) == Failed(Message(PreviousCountMsg + NatToString(signed.transfer.id.counter)))
  {
    ValidationAdvancesCounter(crypto, st, signed);
  }

  /**
   * The balance check uses the registered balance only: after one debit is
   * validated (and not yet registered), the next one of the same sender is
   * checked against the same balance and passes when it alone fits.
   */
  lemma PendingDebitDoesNotReduceBalance(crypto: Crypto, st: ReplicaState, first: SignedTransfer, second: SignedTransfer)
    requires Validate(crypto, st, first).Success?
    requires second.From() == first.From()
    requires second.transfer.id.counter == first.transfer.id.counter + 1
    requires WellFormedRequest(crypto, second)
    requires second.transfer.amount <= Wallets.Balance(st.wallets[first.From()])
    requires SignValidatedTransfer(crypto, st, second).Ok?
    ensures Validate(crypto, ApplyEvent(st, Validated(Validate(crypto, st, first).event)).value, second).Success?
  {
    ValidationAdvancesCounter(crypto, st, first);
  }

  /** The bypass accepts whatever the full validation accepts, with the same event. */
  lemma TestValidateAcceptsValidated(crypto: Crypto, st: ReplicaState, signed: SignedTransfer)
    requires Validate(crypto, st, signed).Success?
    ensures TestValidateTransfer(crypto, st, signed) == Validate(crypto, st, signed)
  {
  }

  // -----------------------------------------------------------------------
  // Phase 2: registration
  // -----------------------------------------------------------------------

  /**
   * Applying a registration fails without a sender wallet, fails with
   * `InsufficientBalance` on an overdraft, and otherwise appends the debit to
   * the sender's wallet; nothing else changes.
   */
  lemma RegisteredAppends(st: ReplicaState, ev: TransferRegistered)
    requires WalletsKeyed(st)
    ensures var t := ev.debitProof.signedTransfer.transfer;
            var a := t.id.actor;
            && (a !in st.wallets ==> ApplyEvent(st, Registered(ev)) == Err(Message("")))
            && (a in st.wallets && Wallets.Overdraws(st.wallets[a], t) ==> ApplyEvent(st, Registered(ev)) == Err(InsufficientBalance))
            && (a in st.wallets && !Wallets.Overdraws(st.wallets[a], t) ==>
                  ApplyEvent(st, Registered(ev)) == Ok(st.(wallets := st.wallets[a := Wallets.Wallet(a, st.wallets[a].history + [t])])))
  {
  }

  /**
   * Applying a registration appends the debit to the sender's ledger, which
   * lowers its balance by the amount, unless it is a debit to another wallet
   * that the balance cannot cover, in which case `apply` fails; registering
   * the same proof again is refused as non-sequential.
   */
  lemma RegisterOnce(crypto: Crypto, st: ReplicaState, proof: DebitAgreementProof, pastKeyOk: bool)
    requires Register(crypto, st, proof, pastKeyOk).Success?
    ensures var applied := ApplyEvent(st, Registered(Register(crypto, st, proof, pastKeyOk).event));
            && (applied.Ok? <==> !Wallets.Overdraws(st.wallets[proof.From()], proof.signedTransfer.transfer))
            && (applied.Err? ==> applied.error == InsufficientBalance)
    ensures var applied := ApplyEvent(st, Registered(Register(crypto, st, proof, pastKeyOk).event));
            applied.Ok? ==>
              && applied.value.wallets[proof.From()].history == st.wallets[proof.From()].history + [proof.signedTransfer.transfer]
              && (proof.To() != proof.From() ==>
                    Balance(applied.value, proof.From()).value == Balance(st, proof.From()).value - proof.signedTransfer.transfer.amount)
              && Register(crypto, applied.value, proof, pastKeyOk) == Failed(Message(NonSequentialMsg))
  {
    var w := st.wallets[proof.From()];
    var t := proof.signedTransfer.transfer;
    assert Register(crypto, st, proof, pastKeyOk).event == TransferRegistered(proof);
    assert Wallets.IsSequential(w, t) == Ok(true);
    var applied := ApplyEvent(st, Registered(TransferRegistered(proof)));
    if Wallets.Append(w, t).Ok? {
      var w' := Wallets.Append(w, t).value;
      assert applied == Ok(st.(wallets := st.wallets[proof.From() := w']));
      Wallets.AppendBalance(w, t);
      Wallets.AppendedDebitNotSequential(w, t);
      assert VerifyRegisteredProof(crypto, applied.value, proof, pastKeyOk) == VerifyRegisteredProof(crypto, st, proof, pastKeyOk);
    } else {
      assert applied == Err(Wallets.Append(w, t).error);
    }
  }

  /** Registering an event whose sender has no wallet is an error. */
  lemma RegisteredWithoutSenderFails(st: ReplicaState, ev: TransferRegistered)
    requires ev.debitProof.From() !in st.wallets
    ensures ApplyEvent(st, Registered(ev)) == Err(Message(""))
  {
  }

  // -----------------------------------------------------------------------
  // Phase 3: crediting
  // -----------------------------------------------------------------------

  /** The recipient's history before a propagation: its wallet's, or none when it has no wallet. */
  function RecipientHistory(st: ReplicaState, p: DebitAgreementProof): seq<Transfer>
  {
    if p.To() in st.wallets then st.wallets[p.To()].history else []
  }

  /**
   * Applying a propagation creates the recipient's wallet when it is missing
   * and appends the transfer to it; nothing else changes.
   */
  lemma PropagatedAppends(st: ReplicaState, ev: TransferPropagated)
    requires WalletsKeyed(st)
    ensures var p := ev.debitProof;
            ApplyEvent(st, Propagated(ev))
            == Ok(st.(wallets := st.wallets[p.To() := Wallets.Wallet(p.To(), RecipientHistory(st, p) + [p.signedTransfer.transfer])]))
  {
  }

  /**
   * After a propagation the proof counts as already credited, and the
   * recipient's balance has risen by the amount (from 0 for a new wallet).
   */
  lemma PropagatedCredits(st: ReplicaState, ev: TransferPropagated)
    requires WalletsKeyed(st)
    ensures ApplyEvent(st, Propagated(ev)).Ok?
    ensures var st' := ApplyEvent(st, Propagated(ev)).value;
            var p := ev.debitProof;
            && AlreadyCredited(st', p)
            && (p.From() != p.To() ==>
                  Balance(st', p.To()).value == (if p.To() in st.wallets then Balance(st, p.To()).value else 0) + p.signedTransfer.transfer.amount)
  {
    PropagatedAppends(st, ev);
    var p := ev.debitProof;
    var t := p.signedTransfer.transfer;
    var current := if t.to in st.wallets then st.wallets[t.to] else Wallets.New(t.to);
    assert current.id == t.to;
    assert Wallets.Append(current, t) == Ok(Wallets.Wallet(t.to, RecipientHistory(st, p) + [t]));
    assert ApplyEvent(st, Propagated(ev)).value.wallets[t.to] == Wallets.Append(current, t).value;
    Wallets.AppendBalance(current, t);
    Wallets.AppendContains(current, t, t.id);
    assert Wallets.Credits(Wallets.New(t.to)) == [] && Wallets.Debits(Wallets.New(t.to)) == [];
  }

  /** After any successful propagation the replica has a wallet, so genesis is closed. */
  lemma PropagationClosesGenesis(st: ReplicaState, ev: TransferPropagated)
    requires ApplyEvent(st, Propagated(ev)).Ok?
    ensures ApplyEvent(st, Propagated(ev)).value.wallets != map[]
  {
    assert ev.debitProof.To() in ApplyEvent(st, Propagated(ev)).value.wallets;
  }

  /** A proof that resolved before its credit still resolves after it, and is now a duplicate. */
  lemma CreditedStillResolves(crypto: Crypto, st: ReplicaState, ev: TransferPropagated, pastKey: Option<PublicKey>)
    requires WalletsKeyed(st)
    requires Resolvable(crypto, st, ev.debitProof, pastKey)
    ensures ApplyEvent(st, Propagated(ev)).Ok?
    ensures Resolvable(crypto, ApplyEvent(st, Propagated(ev)).value, ev.debitProof, pastKey)
    ensures AlreadyCredited(ApplyEvent(st, Propagated(ev)).value, ev.debitProof)
  {
    PropagatedAppends(st, ev);
    PropagatedCredits(st, ev);
    var after := ApplyEvent(st, Propagated(ev)).value;
    assert after.otherGroups == st.otherGroups && after.peerReplicas == st.peerReplicas;
    assert SignedByKnownGroup(crypto, st, ev.debitProof) == SignedByKnownGroup(crypto, after, ev.debitProof);
  }

  /**
   * Delivering the same proof twice credits it once: the first delivery's
   * event, once applied, makes the second delivery no change, and the balance
   * rises by the amount a single time.
   */
  method DeliverTwice(crypto: Crypto, st: ReplicaState, proof: DebitAgreementProof, pastKey: Option<PublicKey>)
    returns (first: Outcome<TransferPropagated>, second: Outcome<TransferPropagated>, after: ReplicaState)
    requires WalletsKeyed(st)
    ensures first.Success? ==> ApplyEvent(st, Propagated(first.event)) == Ok(after) && second == NoChange
    ensures first.Success? ==> AlreadyCredited(after, proof)
    ensures first.Success? && proof.From() != proof.To() ==>
              Balance(after, proof.To()).value
              == (if proof.To() in st.wallets then Balance(st, proof.To()).value else 0) + proof.signedTransfer.transfer.amount
    ensures !first.Success? ==> after == st && second == first
  {
    first := ReceivePropagated(crypto, st, proof, pastKey);
    after, second := st, first;
    if first.Success? {
      var ev := first.event;
      CreditedStillResolves(crypto, st, ev, pastKey);
      PropagatedCredits(st, ev);
      after := ApplyEvent(st, Propagated(ev)).value;
      second := ReceivePropagated(crypto, after, proof, pastKey);
    }
  }

  /** Genesis succeeds at most once: its own event closes it. */
  method GenesisTwice(crypto: Crypto, st: ReplicaState, proof: DebitAgreementProof, pastKey: Option<PublicKey>)
    returns (first: Outcome<TransferPropagated>, second: Outcome<TransferPropagated>)
    requires WalletsKeyed(st)
    ensures first.Success? ==> st.wallets == map[] && second == Failed(InvalidOperation)
  {
    first := Genesis(crypto, st, proof, pastKey);
    second := first;
    if first.Success? {
      PropagatedCredits(st, first.event);
      PropagationClosesGenesis(st, first.event);
      var after := ApplyEvent(st, Propagated(first.event)).value;
      second := Genesis(crypto, after, proof, pastKey);
    }
  }

  // -----------------------------------------------------------------------
  // Known groups
  // -----------------------------------------------------------------------

  /** Applying a known-group event adds the group and touches nothing else. */
  lemma GroupAddedInserts(st: ReplicaState, ev: KnownGroupAdded)
    ensures ApplyEvent(st, GroupAdded(ev)) == Ok(st.(otherGroups := st.otherGroups + {ev.group}))
    ensures ev.group in ApplyEvent(st, GroupAdded(ev)).value.otherGroups
  {
  }

  /** A group, once its event is applied, is refused as already known. */
  lemma KnownGroupOnce(st: ReplicaState, group: PublicKeySet)
    requires AddKnownGroup(st, group).Success?
    ensures ApplyEvent(st, GroupAdded(AddKnownGroup(st, group).event)).Ok?
    ensures AddKnownGroup(ApplyEvent(st, GroupAdded(AddKnownGroup(st, group).event)).value, group) == Failed(DataExists)
  {
  }

  // -----------------------------------------------------------------------
  // Registration of past-key proofs (see the finding in README.md)
  // -----------------------------------------------------------------------

  /**
   * As written, the past-key fallback has no effect: a proof our group's key
   * does not verify is refused even when `f()` recognises its key, while the
   * corrected check accepts it.
   */
  lemma PastKeyIgnoredAsWritten(crypto: Crypto, st: ReplicaState, proof: DebitAgreementProof)
    requires ProofData(crypto, proof).Some? && !GroupSigned(crypto, st.peerReplicas, proof)
    ensures VerifyRegisteredProofAsWritten(crypto, st, proof, true).Err?
    ensures VerifyRegisteredProofAsWritten(crypto, st, proof, true) == VerifyRegisteredProofAsWritten(crypto, st, proof, false)
    ensures VerifyRegisteredProof(crypto, st, proof, true).Ok?
  {
  }

  /**
   * As written, register ignores the past-key answer: it behaves as the
   * corrected command told that no past key applies, and so refuses a
   * sequential debit that only a past key signed.
   */
  lemma RegisterAsWrittenIgnoresPastKey(crypto: Crypto, st: ReplicaState, proof: DebitAgreementProof, pastKeyOk: bool)
    ensures RegisterAsWritten(crypto, st, proof, pastKeyOk) == Register(crypto, st, proof, false)
    ensures ProofData(crypto, proof).Some? && !GroupSigned(crypto, st.peerReplicas, proof)
            && proof.From() in st.wallets
            && Wallets.IsSequential(st.wallets[proof.From()], proof.signedTransfer.transfer) == Ok(true)
            ==> RegisterAsWritten(crypto, st, proof, true) == Failed(InvalidSignature)
                && Register(crypto, st, proof, true) == Success(TransferRegistered(proof))
  {
    if ProofData(crypto, proof).Some? && !GroupSigned(crypto, st.peerReplicas, proof) {
      PastKeyIgnoredAsWritten(crypto, st, proof);
    }
  }

  /** With the corrected check, a sequential debit whose key is recognised as a past key is registered. */
  lemma RegisterAcceptsPastKey(crypto: Crypto, st: ReplicaState, proof: DebitAgreementProof)
    requires ProofData(crypto, proof).Some?
    requires proof.From() in st.wallets
    requires Wallets.IsSequential(st.wallets[proof.From()], proof.signedTransfer.transfer) == Ok(true)
    ensures Register(crypto, st, proof, true) == Success(TransferRegistered(proof))
  {
  }

  // -----------------------------------------------------------------------
  // The ledger invariant kept by decide-then-apply
  // -----------------------------------------------------------------------

  /** No wallet's balance is below zero, as an unsigned amount cannot be. */
  predicate Solvent(st: ReplicaState)
  {
    forall k :: k in st.wallets ==> Wallets.Balance(st.wallets[k]) >= 0
  }

  /**
   * Every wallet is stored under its own id, its debits are numbered 0, 1, 2, ...,
   * and its balance is not negative.
   */
  predicate Consistent(st: ReplicaState)
  {
    WalletsKeyed(st) && (forall k :: k in st.wallets ==> Wallets.DebitsNumbered(st.wallets[k])) && Solvent(st)
  }

  /** Replacing one wallet by a well-formed one under its own id keeps the replica consistent. */
  lemma UpdateKeepsConsistent(st: ReplicaState, k: PublicKey, w: Wallets.Wallet)
    requires Consistent(st)
    requires w.id == k && Wallets.DebitsNumbered(w) && Wallets.Balance(w) >= 0
    ensures Consistent(st.(wallets := st.wallets[k := w]))
  {
  }

  /** Replacing one wallet by one with a non-negative balance keeps the replica solvent. */
  lemma UpdateKeepsSolvent(st: ReplicaState, k: PublicKey, w: Wallets.Wallet)
    requires Solvent(st) && Wallets.Balance(w) >= 0
    ensures Solvent(st.(wallets := st.wallets[k := w]))
  {
  }

  /** Whatever event is applied, no balance goes below zero. */
  lemma ApplyEventKeepsSolvent(st: ReplicaState, e: ReplicaEvent)
    requires Solvent(st)
    requires ApplyEvent(st, e).Ok?
    ensures Solvent(ApplyEvent(st, e).value)
  {
    match e
    case GroupAdded(_) =>
    case Validated(_) =>
    case Registered(ev) =>
      var t := ev.debitProof.signedTransfer.transfer;
      var w := st.wallets[t.id.actor];
      var w' := Wallets.Append(w, t).value;
      assert ApplyEvent(st, e) == Ok(st.(wallets := st.wallets[t.id.actor := w']));
      Wallets.AppendKeepsSolvent(w, t);
      UpdateKeepsSolvent(st, t.id.actor, w');
    case Propagated(ev) =>
      var t := ev.debitProof.signedTransfer.transfer;
      var current := if t.to in st.wallets then st.wallets[t.to] else Wallets.New(t.to);
      var w' := Wallets.Append(current, t).value;
      assert ApplyEvent(st, e) == Ok(st.(wallets := st.wallets[t.to := w']));
      Wallets.AppendKeepsSolvent(current, t);
      UpdateKeepsSolvent(st, t.to, w');
  }

  /** Replaying a history never takes a balance below zero. */
  lemma {:induction false} ApplyAllKeepsSolvent(st: ReplicaState, events: seq<ReplicaEvent>)
    requires Solvent(st)
    requires ApplyAll(st, events).Ok?
    ensures Solvent(ApplyAll(st, events).value)
    decreases |events|
  {
    if events != [] {
      ApplyEventKeepsSolvent(st, events[0]);
      ApplyAllKeepsSolvent(ApplyEvent(st, events[0]).value, events[1..]);
    }
  }

  /** A replica rebuilt from any history has no negative balance. */
  lemma ReplayedBalancesNonNegative(crypto: Crypto, secretKey: SecretKeyShare, keyIndex: nat, peerReplicas: PublicKeySet,
                                    events: seq<ReplicaEvent>, walletId: PublicKey)
    requires ApplyAll(EmptyState(crypto, secretKey, keyIndex, peerReplicas), events).Ok?
    requires walletId in ApplyAll(EmptyState(crypto, secretKey, keyIndex, peerReplicas), events).value.wallets
    ensures Balance(ApplyAll(EmptyState(crypto, secretKey, keyIndex, peerReplicas), events).value, walletId).value >= 0
  {
    ApplyAllKeepsSolvent(EmptyState(crypto, secretKey, keyIndex, peerReplicas), events);
  }

  lemma EmptyConsistent(crypto: Crypto, secretKey: SecretKeyShare, keyIndex: nat, peerReplicas: PublicKeySet)
    ensures Consistent(EmptyState(crypto, secretKey, keyIndex, peerReplicas))
  {
  }

  /** On a consistent replica, a debit registers only with the counter that equals the sender's number of debits. */
  lemma RegisterGapless(crypto: Crypto, st: ReplicaState, proof: DebitAgreementProof, pastKeyOk: bool)
    requires Consistent(st)
    requires Register(crypto, st, proof, pastKeyOk).Success?
    ensures proof.signedTransfer.transfer.id.counter == |Wallets.Debits(st.wallets[proof.From()])|
  {
    Wallets.NumberedNextCounter(st.wallets[proof.From()]);
  }

  lemma ValidatedKeepsConsistent(st: ReplicaState, ev: TransferValidated)
    requires Consistent(st)
    ensures ApplyEvent(st, Validated(ev)).Ok? && Consistent(ApplyEvent(st, Validated(ev)).value)
  {
  }

  lemma GroupAddedKeepsConsistent(st: ReplicaState, ev: KnownGroupAdded)
    requires Consistent(st)
    ensures ApplyEvent(st, GroupAdded(ev)).Ok? && Consistent(ApplyEvent(st, GroupAdded(ev)).value)
  {
  }

  /**
   * The event of a successful registration is applied exactly when it
   * does not overdraw the sender, and then keeps the replica consistent.
   */
  lemma RegisteredKeepsConsistent(crypto: Crypto, st: ReplicaState, proof: DebitAgreementProof, pastKeyOk: bool)
    requires Consistent(st)
    requires Register(crypto, st, proof, pastKeyOk).Success?
    ensures ApplyEvent(st, Registered(TransferRegistered(proof))).Ok?
            <==> !Wallets.Overdraws(st.wallets[proof.From()], proof.signedTransfer.transfer)
    ensures ApplyEvent(st, Registered(TransferRegistered(proof))).Ok? ==>
              Consistent(ApplyEvent(st, Registered(TransferRegistered(proof))).value)
  {
    var w := st.wallets[proof.From()];
    var t := proof.signedTransfer.transfer;
    assert Wallets.IsSequential(w, t) == Ok(true);
    Wallets.AppendKeepsNumbered(w, t);
    if Wallets.Append(w, t).Ok? {
      var w' := Wallets.Append(w, t).value;
      assert ApplyEvent(st, Registered(TransferRegistered(proof))) == Ok(st.(wallets := st.wallets[proof.From() := w']));
      Wallets.AppendKeepsSolvent(w, t);
      UpdateKeepsConsistent(st, proof.From(), w');
    }
  }

  /** A propagated credit that is not a self-transfer keeps the replica consistent. */
  lemma PropagatedKeepsConsistent(st: ReplicaState, ev: TransferPropagated)
    requires Consistent(st)
    requires ev.debitProof.From() != ev.debitProof.To()
    ensures ApplyEvent(st, Propagated(ev)).Ok? && Consistent(ApplyEvent(st, Propagated(ev)).value)
  {
    var t := ev.debitProof.signedTransfer.transfer;
    var current := if t.to in st.wallets then st.wallets[t.to] else Wallets.New(t.to);
    Wallets.AppendCreditKeepsNumbered(current, t);
    Wallets.AppendKeepsSolvent(current, t);
    var w' := Wallets.Append(current, t).value;
    assert ApplyEvent(st, Propagated(ev)) == Ok(st.(wallets := st.wallets[t.to := w']));
    UpdateKeepsConsistent(st, t.to, w');
  }

  // -----------------------------------------------------------------------
  // Replay
  // -----------------------------------------------------------------------

  /** Applying an event keeps every wallet stored under its own id. */
  lemma ApplyEventKeepsKeyed(st: ReplicaState, e: ReplicaEvent)
    requires WalletsKeyed(st)
    requires ApplyEvent(st, e).Ok?
    ensures WalletsKeyed(ApplyEvent(st, e).value)
  {
  }

  /** Replaying a history keeps every wallet stored under its own id. */
  lemma {:induction false} ApplyAllKeepsKeyed(st: ReplicaState, events: seq<ReplicaEvent>)
    requires WalletsKeyed(st)
    requires ApplyAll(st, events).Ok?
    ensures WalletsKeyed(ApplyAll(st, events).value)
    decreases |events|
  {
    if events != [] {
      ApplyEventKeepsKeyed(st, events[0]);
      ApplyAllKeepsKeyed(ApplyEvent(st, events[0]).value, events[1..]);
    }
  }

  /**
   * Replaying `xs + ys` is replaying `xs` and then `ys`: recovery from a
   * history and live application of the same events cannot diverge.
   */
  lemma {:induction false} ApplyAllConcat(st: ReplicaState, xs: seq<ReplicaEvent>, ys: seq<ReplicaEvent>)
    ensures ApplyAll(st, xs + ys) == match ApplyAll(st, xs)
                                     case Err(err) => Err(err)
                                     case Ok(mid) => ApplyAll(mid, ys)
    decreases |xs|
  {
    if xs == [] {
      assert xs + ys == ys;
    } else {
      assert (xs + ys)[0] == xs[0];
      assert (xs + ys)[1..] == xs[1..] + ys;
      match ApplyEvent(st, xs[0])
      case Err(_) =>
      case Ok(next) => ApplyAllConcat(next, xs[1..], ys);
    }
  }

  /** Replaying one more event is one more `apply`. */
  lemma ApplyAllSnoc(st: ReplicaState, xs: seq<ReplicaEvent>, e: ReplicaEvent)
    requires ApplyAll(st, xs).Ok?
    ensures ApplyAll(st, xs + [e]) == ApplyEvent(ApplyAll(st, xs).value, e)
  {
    ApplyAllConcat(st, xs, [e]);
    var mid := ApplyAll(st, xs).value;
    assert [e][1..] == [];
    match ApplyEvent(mid, e)
    case Err(_) =>
    case Ok(_) =>
  }

  // -----------------------------------------------------------------------
  // A worked scenario
  // -----------------------------------------------------------------------

  const Issuer: PublicKey := Key(0)
  const Alice: PublicKey := Key(1)
  const Bob: PublicKey := Key(2)

  /** Genesis of 1000 to Alice. */
  const GenesisProof: DebitAgreementProof :=
    DebitAgreementProof(SignedTransfer(Transfer(TransferId(Issuer, 0), Alice, 1000), Signature(0)), Signature(0))
  /** Alice's first debit: 400 to Bob. */
  const FirstDebit: SignedTransfer := SignedTransfer(Transfer(TransferId(Alice, 0), Bob, 400), Signature(1))
  /** Alice's second debit: 100 to Bob. */
  const SecondDebit: SignedTransfer := SignedTransfer(Transfer(TransferId(Alice, 1), Bob, 100), Signature(2))
  const FirstDebitProof: DebitAgreementProof := DebitAgreementProof(FirstDebit, Signature(3))

  /** Serialisation and every signature check succeed. */
  ghost predicate Permissive(crypto: Crypto)
  {
    (forall p :: crypto.serialize(p).Some?) && (forall k, s, d :: crypto.verify(k, s, d))
  }

  /** Alice's wallet after genesis: one credit of 1000. */
  lemma AliceAfterGenesis()
    ensures Wallets.Balance(Wallets.Wallet(Alice, [GenesisProof.signedTransfer.transfer])) == 1000
    ensures Wallets.Debits(Wallets.Wallet(Alice, [GenesisProof.signedTransfer.transfer])) == []
  {
    var g := GenesisProof.signedTransfer.transfer;
    Wallets.AppendEntries(Wallets.New(Alice), g);
    Wallets.AppendBalance(Wallets.New(Alice), g);
  }

  /** Alice's wallet after debit 0 is registered: 1000 - 400. */
  lemma AliceAfterRegister()
    ensures Wallets.Balance(Wallets.Wallet(Alice, [GenesisProof.signedTransfer.transfer, FirstDebit.transfer])) == 600
  {
    var w := Wallets.Wallet(Alice, [GenesisProof.signedTransfer.transfer]);
    AliceAfterGenesis();
    assert [GenesisProof.signedTransfer.transfer] + [FirstDebit.transfer] == [GenesisProof.signedTransfer.transfer, FirstDebit.transfer];
    Wallets.AppendBalance(w, FirstDebit.transfer);
  }

  /** Bob's new wallet after the credit: 400. */
  lemma BobAfterCredit()
    ensures Wallets.Balance(Wallets.Wallet(Bob, [FirstDebit.transfer])) == 400
  {
    Wallets.AppendEntries(Wallets.New(Bob), FirstDebit.transfer);
    Wallets.AppendBalance(Wallets.New(Bob), FirstDebit.transfer);
  }

  /** Genesis credits Alice on an empty replica. */
  lemma ScenarioGenesis(st0: ReplicaState, share: SignatureShare, signer: PublicKey) returns (st1: ReplicaState)
    requires st0.wallets == map[] && st0.pendingDebits == map[]
    ensures ApplyEvent(st0, Propagated(TransferPropagated(GenesisProof, signer, share))) == Ok(st1)
    ensures st1 == st0.(wallets := map[Alice := Wallets.Wallet(Alice, [GenesisProof.signedTransfer.transfer])])
    ensures Balance(st1, Alice) == Some(1000)
  {
    PropagatedAppends(st0, TransferPropagated(GenesisProof, signer, share));
    st1 := st0.(wallets := map[Alice := Wallets.Wallet(Alice, [GenesisProof.signedTransfer.transfer])]);
    AliceAfterGenesis();
  }

  /** Debit 0 is accepted once, and debit 1 is accepted while debit 0 is pending. */
  lemma ScenarioValidations(crypto: Crypto, st1: ReplicaState) returns (st2: ReplicaState, st3: ReplicaState)
    requires Permissive(crypto)
    requires st1.wallets == map[Alice := Wallets.Wallet(Alice, [GenesisProof.signedTransfer.transfer])]
    requires st1.pendingDebits == map[]
    ensures Validate(crypto, st1, FirstDebit).Success?
    ensures ApplyEvent(st1, Validated(Validate(crypto, st1, FirstDebit).event)) == Ok(st2)
    ensures st2.pendingDebits[Alice] == 0
    ensures Validate(crypto, st2, FirstDebit) == Failed(Message(PreviousCountMsg + "0"))
    ensures Validate(crypto, st2, SecondDebit).Success?
    ensures ApplyEvent(st2, Validated(Validate(crypto, st2, SecondDebit).event)) == Ok(st3)
    ensures st3 == st1.(pendingDebits := map[Alice := 1])
  {
    assert crypto.serialize(TransferBytes(FirstDebit.transfer)).Some?;
    assert crypto.serialize(SignedTransferBytes(FirstDebit)).Some?;
    assert crypto.serialize(TransferBytes(SecondDebit.transfer)).Some?;
    assert crypto.serialize(SignedTransferBytes(SecondDebit)).Some?;
    assert crypto.verify(Alice, FirstDebit.actorSignature, crypto.serialize(TransferBytes(FirstDebit.transfer)).value);
    assert crypto.verify(Alice, SecondDebit.actorSignature, crypto.serialize(TransferBytes(SecondDebit.transfer)).value);
    AliceAfterGenesis();
    assert Validate(crypto, st1, FirstDebit).Success?;
    ValidationAdvancesCounter(crypto, st1, FirstDebit);
    st2 := st1.(pendingDebits := map[Alice := 0]);
    ValidationNotRepeatable(crypto, st1, FirstDebit);
    assert NatToString(0) == "0";
    PendingDebitDoesNotReduceBalance(crypto, st1, FirstDebit, SecondDebit);
    st3 := st1.(pendingDebits := map[Alice := 1]);
    assert map[Alice := 0][Alice := 1] == map[Alice := 1];
  }

  /** Registering debit 0 leaves Alice 600. */
  lemma ScenarioRegister(crypto: Crypto, st3: ReplicaState) returns (st4: ReplicaState)
    requires Permissive(crypto)
    requires st3.wallets == map[Alice := Wallets.Wallet(Alice, [GenesisProof.signedTransfer.transfer])]
    ensures Register(crypto, st3, FirstDebitProof, false) == Success(TransferRegistered(FirstDebitProof))
    ensures ApplyEvent(st3, Registered(TransferRegistered(FirstDebitProof))) == Ok(st4)
    ensures st4 == st3.(wallets := map[Alice := Wallets.Wallet(Alice, [GenesisProof.signedTransfer.transfer, FirstDebit.transfer])])
    ensures Balance(st4, Alice) == Some(600)
  {
    var data := crypto.serialize(SignedTransferBytes(FirstDebit));
    assert data.Some?;
    assert crypto.verify(GroupPublicKey(crypto, st3.peerReplicas), FirstDebitProof.debitingReplicasSig, data.value);
    assert VerifyRegisteredProof(crypto, st3, FirstDebitProof, false).Ok?;
    var w := Wallets.Wallet(Alice, [GenesisProof.signedTransfer.transfer]);
    AliceAfterGenesis();
    assert Wallets.NextDebitCounter(w) == 0;
    assert Wallets.IsSequential(w, FirstDebit.transfer) == Ok(true);
    assert [GenesisProof.signedTransfer.transfer] + [FirstDebit.transfer] == [GenesisProof.signedTransfer.transfer, FirstDebit.transfer];
    var w' := Wallets.Wallet(Alice, [GenesisProof.signedTransfer.transfer, FirstDebit.transfer]);
    assert Wallets.Append(w, FirstDebit.transfer) == Ok(w');
    assert st3.wallets[Alice := w'] == map[Alice := w'];
    st4 := st3.(wallets := map[Alice := w']);
    AliceAfterRegister();
  }

  /** Crediting debit 0 gives Bob 400 and marks the proof as credited. */
  lemma ScenarioCredit(st4: ReplicaState, share: SignatureShare, signer: PublicKey) returns (st5: ReplicaState)
    requires st4.wallets == map[Alice := Wallets.Wallet(Alice, [GenesisProof.signedTransfer.transfer, FirstDebit.transfer])]
    ensures ApplyEvent(st4, Propagated(TransferPropagated(FirstDebitProof, signer, share))) == Ok(st5)
    ensures Balance(st5, Bob) == Some(400) && AlreadyCredited(st5, FirstDebitProof)
  {
    var ev := TransferPropagated(FirstDebitProof, signer, share);
    PropagatedAppends(st4, ev);
    PropagatedCredits(st4, ev);
    st5 := ApplyEvent(st4, Propagated(ev)).value;
    assert st5.wallets[Bob] == Wallets.Wallet(Bob, [FirstDebit.transfer]);
    BobAfterCredit();
  }

  /**
   * Genesis of 1000 to Alice; Alice validates debit 0 of 400 to Bob, cannot
   * validate it again, validates debit 1 of 100 against the unchanged balance;
   * registering debit 0 leaves Alice 600; crediting it to Bob gives him 400
   * and makes a second delivery a duplicate.
   */
  lemma Scenario(crypto: Crypto, st0: ReplicaState, share: SignatureShare, signer: PublicKey)
    returns (st1: ReplicaState, st2: ReplicaState, st3: ReplicaState, st4: ReplicaState, st5: ReplicaState)
    requires Permissive(crypto)
    requires st0.wallets == map[] && st0.pendingDebits == map[]
    ensures ApplyEvent(st0, Propagated(TransferPropagated(GenesisProof, signer, share))) == Ok(st1)
    ensures Balance(st1, Alice) == Some(1000)
    ensures Validate(crypto, st1, FirstDebit).Success?
    ensures ApplyEvent(st1, Validated(Validate(crypto, st1, FirstDebit).event)) == Ok(st2)
    ensures st2.pendingDebits[Alice] == 0
    ensures Validate(crypto, st2, FirstDebit) == Failed(Message(PreviousCountMsg + "0"))
    ensures Validate(crypto, st2, SecondDebit).Success?
    ensures ApplyEvent(st2, Validated(Validate(crypto, st2, SecondDebit).event)) == Ok(st3)
    ensures st3.pendingDebits[Alice] == 1 && Balance(st3, Alice) == Some(1000)
    ensures Register(crypto, st3, FirstDebitProof, false) == Success(TransferRegistered(FirstDebitProof))
    ensures ApplyEvent(st3, Registered(TransferRegistered(FirstDebitProof))) == Ok(st4)
    ensures Balance(st4, Alice) == Some(600)
    ensures ApplyEvent(st4, Propagated(TransferPropagated(FirstDebitProof, signer, share))) == Ok(st5)
    ensures Balance(st5, Bob) == Some(400) && AlreadyCredited(st5, FirstDebitProof)
  {
    st1 := ScenarioGenesis(st0, share, signer);
    st2, st3 := ScenarioValidations(crypto, st1);
    st4 := ScenarioRegister(crypto, st3);
    st5 := ScenarioCredit(st4, share, signer);
  }

  // -----------------------------------------------------------------------
  // Two pending debits against one balance
  // -----------------------------------------------------------------------

  /** Alice's debit 0 of 600 to Bob. */
  const LargeFirst: SignedTransfer := SignedTransfer(Transfer(TransferId(Alice, 0), Bob, 600), Signature(4))
  /** Alice's debit 1 of another 600 to Bob. */
  const LargeSecond: SignedTransfer := SignedTransfer(Transfer(TransferId(Alice, 1), Bob, 600), Signature(5))
  const LargeFirstProof: DebitAgreementProof := DebitAgreementProof(LargeFirst, Signature(6))
  const LargeSecondProof: DebitAgreementProof := DebitAgreementProof(LargeSecond, Signature(7))

  /** Both debits of 600 pass validation, because each is compared with the registered balance of 1000. */
  lemma LargeValidations(crypto: Crypto, st1: ReplicaState) returns (st2: ReplicaState, st3: ReplicaState)
    requires Permissive(crypto)
    requires st1.wallets == map[Alice := Wallets.Wallet(Alice, [GenesisProof.signedTransfer.transfer])]
    requires st1.pendingDebits == map[]
    ensures Validate(crypto, st1, LargeFirst).Success?
    ensures ApplyEvent(st1, Validated(Validate(crypto, st1, LargeFirst).event)) == Ok(st2)
    ensures Validate(crypto, st2, LargeSecond).Success?
    ensures ApplyEvent(st2, Validated(Validate(crypto, st2, LargeSecond).event)) == Ok(st3)
    ensures st3 == st1.(pendingDebits := map[Alice := 1])
  {
    assert crypto.serialize(TransferBytes(LargeFirst.transfer)).Some?;
    assert crypto.serialize(SignedTransferBytes(LargeFirst)).Some?;
    assert crypto.serialize(TransferBytes(LargeSecond.transfer)).Some?;
    assert crypto.serialize(SignedTransferBytes(LargeSecond)).Some?;
    assert crypto.verify(Alice, LargeFirst.actorSignature, crypto.serialize(TransferBytes(LargeFirst.transfer)).value);
    assert crypto.verify(Alice, LargeSecond.actorSignature, crypto.serialize(TransferBytes(LargeSecond.transfer)).value);
    AliceAfterGenesis();
    assert Validate(crypto, st1, LargeFirst).Success?;
    ValidationAdvancesCounter(crypto, st1, LargeFirst);
    st2 := st1.(pendingDebits := map[Alice := 0]);
    PendingDebitDoesNotReduceBalance(crypto, st1, LargeFirst, LargeSecond);
    st3 := st1.(pendingDebits := map[Alice := 1]);
    assert map[Alice := 0][Alice := 1] == map[Alice := 1];
  }

  /** Alice's wallet after debit 0 of 600 is registered: 400 left, one debit. */
  lemma AliceAfterLargeFirst()
    ensures var w := Wallets.Wallet(Alice, [GenesisProof.signedTransfer.transfer, LargeFirst.transfer]);
            Wallets.Balance(w) == 400 && Wallets.Debits(w) == [LargeFirst.transfer]
  {
    var w := Wallets.Wallet(Alice, [GenesisProof.signedTransfer.transfer]);
    AliceAfterGenesis();
    assert [GenesisProof.signedTransfer.transfer] + [LargeFirst.transfer] == [GenesisProof.signedTransfer.transfer, LargeFirst.transfer];
    Wallets.AppendEntries(w, LargeFirst.transfer);
    Wallets.AppendBalance(w, LargeFirst.transfer);
  }

  /** Registering debit 0 of 600 succeeds and leaves Alice 400. */
  lemma LargeRegisterFirst(crypto: Crypto, st3: ReplicaState) returns (st4: ReplicaState)
    requires Permissive(crypto)
    requires st3.wallets == map[Alice := Wallets.Wallet(Alice, [GenesisProof.signedTransfer.transfer])]
    ensures Register(crypto, st3, LargeFirstProof, false) == Success(TransferRegistered(LargeFirstProof))
    ensures ApplyEvent(st3, Registered(TransferRegistered(LargeFirstProof))) == Ok(st4)
    ensures st4 == st3.(wallets := map[Alice := Wallets.Wallet(Alice, [GenesisProof.signedTransfer.transfer, LargeFirst.transfer])])
  {
    var data := crypto.serialize(SignedTransferBytes(LargeFirst));
    assert data.Some?;
    assert crypto.verify(GroupPublicKey(crypto, st3.peerReplicas), LargeFirstProof.debitingReplicasSig, data.value);
    assert VerifyRegisteredProof(crypto, st3, LargeFirstProof, false).Ok?;
    var w := Wallets.Wallet(Alice, [GenesisProof.signedTransfer.transfer]);
    AliceAfterGenesis();
    assert Wallets.IsSequential(w, LargeFirst.transfer) == Ok(true);
    assert [GenesisProof.signedTransfer.transfer] + [LargeFirst.transfer] == [GenesisProof.signedTransfer.transfer, LargeFirst.transfer];
    var w' := Wallets.Wallet(Alice, [GenesisProof.signedTransfer.transfer, LargeFirst.transfer]);
    assert Wallets.Append(w, LargeFirst.transfer) == Ok(w');
    assert st3.wallets[Alice := w'] == map[Alice := w'];
    st4 := st3.(wallets := map[Alice := w']);
  }

  /**
   * Registering debit 1 is decided a success, since it is sequential, but its
   * event cannot be applied: 600 exceeds the 400 left.
   */
  lemma LargeRegisterSecond(crypto: Crypto, st4: ReplicaState)
    requires Permissive(crypto)
    requires st4.wallets == map[Alice := Wallets.Wallet(Alice, [GenesisProof.signedTransfer.transfer, LargeFirst.transfer])]
    ensures Register(crypto, st4, LargeSecondProof, false) == Success(TransferRegistered(LargeSecondProof))
    ensures ApplyEvent(st4, Registered(TransferRegistered(LargeSecondProof))) == Err(InsufficientBalance)
  {
    var data := crypto.serialize(SignedTransferBytes(LargeSecond));
    assert data.Some?;
    assert crypto.verify(GroupPublicKey(crypto, st4.peerReplicas), LargeSecondProof.debitingReplicasSig, data.value);
    assert VerifyRegisteredProof(crypto, st4, LargeSecondProof, false).Ok?;
    AliceAfterLargeFirst();
    var w := st4.wallets[Alice];
    assert Wallets.NextDebitCounter(w) == 1;
    assert Wallets.IsSequential(w, LargeSecond.transfer) == Ok(true);
    assert Wallets.Overdraws(w, LargeSecond.transfer);
  }

  /**
   * Genesis of 1000 to Alice; debits 0 and 1 of 600 each both validate and
   * both register as decisions, but applying the second registration fails
   * with `InsufficientBalance`: the pending gate does not count the amount
   * of a debit still pending.
   */
  lemma PendingDebitsOverdraw(crypto: Crypto, st0: ReplicaState, share: SignatureShare, signer: PublicKey)
    returns (st1: ReplicaState, st2: ReplicaState, st3: ReplicaState, st4: ReplicaState)
    requires Permissive(crypto)
    requires st0.wallets == map[] && st0.pendingDebits == map[]
    ensures ApplyEvent(st0, Propagated(TransferPropagated(GenesisProof, signer, share))) == Ok(st1)
    ensures Balance(st1, Alice) == Some(1000)
    ensures Validate(crypto, st1, LargeFirst).Success?
    ensures ApplyEvent(st1, Validated(Validate(crypto, st1, LargeFirst).event)) == Ok(st2)
    ensures Validate(crypto, st2, LargeSecond).Success?
    ensures ApplyEvent(st2, Validated(Validate(crypto, st2, LargeSecond).event)) == Ok(st3)
    ensures Register(crypto, st3, LargeFirstProof, false) == Success(TransferRegistered(LargeFirstProof))
    ensures ApplyEvent(st3, Registered(TransferRegistered(LargeFirstProof))) == Ok(st4)
    ensures Balance(st4, Alice).value == 400
    ensures Register(crypto, st4, LargeSecondProof, false) == Success(TransferRegistered(LargeSecondProof))
    ensures ApplyEvent(st4, Registered(TransferRegistered(LargeSecondProof))) == Err(InsufficientBalance)
  {
    st1 := ScenarioGenesis(st0, share, signer);
    st2, st3 := LargeValidations(crypto, st1);
    st4 := LargeRegisterFirst(crypto, st3);
    AliceAfterLargeFirst();
    LargeRegisterSecond(crypto, st4);
  }
}
