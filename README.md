# Transfer replica: a Dafny model

This project models the `Replica` of `sn_transfers` (`src/replica.rs`). A replica is a member of a group that owns a set of wallets. It runs the three phases of a money transfer:

- **validate**: check a debit request and sign it with its key share;
- **register**: accept a debit that a quorum of its own group agreed on;
- **receive propagated**: credit the recipient of a debit agreed by any group it knows.

The replica also handles genesis, the one creation of money, and learns the key sets of other groups.

Decisions and state changes are split as in the source:

- every command is a pure decision that returns an event or an outcome;
- `apply` is the only place where state changes;
- a replica restored from its history applies the same events in order.

The model is in four modules:

- `DataTypes` (`data_types.dfy`): keys, signatures, transfers, proofs, the four replica events, the error kinds and the four-way command outcome. It also defines `Crypto`, the cryptographic capability the replica uses: bincode serialisation, which may fail, plus signature verification, threshold signing and group public keys. `Crypto` is passed in as a parameter, so no property of it is assumed.
- `Wallets` (`wallet.dfy`): the per-wallet ledger the replica relies on. It is an append-only history, and the balance is credits minus debits. "Is sequential" means the debit counter continues the wallet's own debits. `src/wallet.rs` is not part of this model. Its behaviour is stated here as definitions that the replica relies on.
- `Replica` (`replica.dfy`): the state as a value (`ReplicaState`), the queries, the decision commands, `ApplyEvent` and its left fold `ApplyAll`, and the class `Replica`.
  - The class has the source's fields. `Apply` updates those fields in place, and `FromHistory` runs the replay loop.
  - Finding a foreign group's signer iterates a hash set in no fixed order. It is therefore a method (`FindForeignSigner`), and so are the commands built on it: `VerifyPropagatedProof`, `ReceivePropagated` and `Genesis`.
- `ReplicaProperties` (`replica_properties.dfy`) holds what relates several operations:
  - what the event of a successful command does to the next decision;
  - the ledger invariant `Consistent` (each wallet stored under its own id, with debits numbered 0, 1, 2, … and a balance that is not negative). Decide-then-apply keeps it for validation, registration and known groups, and for every propagation that is not a self-transfer;
  - replay composition;
  - a worked scenario.

## Model

| member | source | states |
|---|---|---|
| `DataTypes.NatToString` | src/replica.rs:201-204 | the `{:?}` rendering of a counter in the out-of-order message is a non-empty string of decimal digits whose value is the counter |
| `Wallets.New` | src/replica.rs:321 | a new wallet has the given id and no history: no credits or debits, a zero balance, next debit counter 0 and no known transfer id |
| `Wallets.Balance` | src/replica.rs:118 | the balance of an empty history is 0, and it is never negative while there are no debits |
| `Wallets.Contains` | src/replica.rs:270 | a wallet contains a transfer id exactly when the id is one of the ids of its history; an empty history contains none |
| `Wallets.IsSequential` | src/replica.rs:244-255 | a transfer whose actor is not the wallet is an error; otherwise the answer is true exactly when its counter is the wallet's next debit counter |
| `Wallets.Append` | src/replica.rs:311 | appending succeeds exactly when the wallet is the recipient or the sender and the transfer is not a debit to another wallet larger than the balance (a self-transfer is never refused for its amount); it then adds the transfer at the end of the history with the id unchanged; a refused overdraft is `InsufficientBalance`, any other refusal `InvalidOperation` |
| `Wallets.CreditsSince` | src/replica.rs:100 | the credits from position `index` on, each one a credit of this wallet; empty past the end |
| `Wallets.DebitsSince` | src/replica.rs:109 | the debits from position `index` on, each one a debit of this wallet; empty past the end |
| `Wallets.AppendEntries` | src/replica.rs:318-322 | after an append, the credit list grows by the transfer when the wallet is its recipient, and the debit list grows when it is its sender |
| `Wallets.AppendBalance` | src/replica.rs:118 | after an append the balance rises by the amount on the credit side and falls by it on the debit side |
| `Wallets.AppendContains` | src/replica.rs:270 | after an append the wallet contains exactly the ids it held before plus the appended transfer's id |
| `Wallets.NumberedNextCounter` | src/replica.rs:244 | when the debits are numbered 0, 1, 2, …, the next debit counter is the number of debits |
| `Wallets.AppendKeepsNumbered` | src/replica.rs:244-249 | a sequential debit is appended exactly when it is a self-transfer or the balance covers it, and appending it keeps the debits numbered |
| `Wallets.AppendCreditKeepsNumbered` | src/replica.rs:318 | appending a credit from another wallet keeps the debits numbered |
| `Wallets.AppendKeepsSolvent` | src/replica.rs:311 | an append that succeeds never takes a non-negative balance below zero |
| `Wallets.AppendedDebitNotSequential` | src/replica.rs:244-251 | once a debit is appended, the same debit is no longer sequential |
| `Replica.Balance` | src/replica.rs:114-120 | there is a balance exactly when the wallet exists, and it is the sum of its credits minus the sum of its debits |
| `Replica.CreditsSince` | src/replica.rs:97-102 | present exactly when the wallet exists; then the wallet's credits from `index` on |
| `Replica.DebitsSince` | src/replica.rs:106-111 | present exactly when the wallet exists; then the wallet's debits from `index` on |
| `Replica.SignValidatedTransfer` | src/replica.rs:362-370 | an encoding failure gives the "Could not serialise transfer" network error; otherwise the result is this replica's key index with its secret share's signature over the encoded signed transfer |
| `Replica.SignProof` | src/replica.rs:375-383 | as above, over the encoded proof, with the "Could not serialise proof" error |
| `Replica.VerifyActorSignature` | src/replica.rs:386-400 | succeeds exactly when the transfer encodes and the sender's key verifies the sender's signature over it; the error says which of the two failed |
| `Replica.VerifyRegisteredProofAsWritten` | src/replica.rs:404-428 | as written, the check succeeds exactly when our group's key verifies the proof, whatever `f()` returns |
| `Replica.VerifyRegisteredProof` | src/replica.rs:404-428 | as intended: succeeds exactly when the signed transfer encodes and either our group's key verifies the proof or `f()` recognises a past key; the error says which check failed |
| `Replica.FindForeignSigner` | src/replica.rs:454-460 | returns the key of some known group that verifies the signature; returns none only when no known group's key verifies it |
| `Replica.VerifyPropagatedProof` | src/replica.rs:432-465 | succeeds exactly when the proof encodes and our key, a past key or a known group's key accepts it; the reported key is ours first, then the past key, then a known group's; the error is the encoding or the signature error |
| `Replica.Validate` | src/replica.rs:173-225 | signature first; self-transfer fatal; zero amount the only rejection; unknown sender; the counter must be 0 with nothing pending, else one past the pending counter; amount at most the registered balance; success exactly when all checks pass and signing works; when every check passes but signing fails, the answer is `Failed(InvalidSignature)`; the event carries this replica's share and key set |
| `Replica.TestValidateTransfer` | src/replica.rs:154-170 | only a self-transfer is refused; when signing fails otherwise, the answer is `Failed(InvalidSignature)`; otherwise the same event as a validation |
| `Replica.Register` | src/replica.rs:228-257 | built on the corrected proof check `VerifyRegisteredProof`, so a recognised past key is accepted (see Findings); proof check first; unknown sender; success exactly when the debit is sequential in the sender's wallet; non-sequential is the "Non-sequential operation" error; never no-change or a rejection |
| `Replica.RegisterAsWritten` | src/replica.rs:228-257 | register with the proof check as written: our group's key must verify the proof; success exactly when it does and the debit is sequential in the sender's wallet |
| `Replica.ReceivePropagated` | src/replica.rs:261-284 | resolution first; a transfer id the recipient already holds gives no change; success exactly when the proof resolves, is new and signing works; the event names an accepted signer and this replica's share over the proof |
| `Replica.Genesis` | src/replica.rs:133-143 | refused with an invalid-operation error on a replica that has any wallet; on an empty one: the resolution error when the proof does not resolve, the invalid-signature error when signing fails, and success exactly when the proof resolves and signing works |
| `Replica.AddKnownGroup` | src/replica.rs:146-151 | an already known group is a data-exists error; any other group succeeds with its own event |
| `Replica.ApplyEvent` | src/replica.rs:294-329 | applying an event keeps the key material, never removes a known group or a pending entry, and only extends wallet histories at the end |
| `Replica.ApplyAll` | src/replica.rs:47-65 | replaying a history keeps the key material and only extends wallet histories |
| `Replica.Replica.FromSnapshot` | src/replica.rs:68-86 | the new replica holds the given state; its id is the public share of its secret key share |
| `Replica.Replica.Apply` | src/replica.rs:294-329 | the new state is the state after the event; on an error the state is unchanged |
| `Replica.Replica.FromHistory` | src/replica.rs:47-65 | the loop rebuilds exactly the fold of the events over the empty state, and fails with the first event's error |
| `ReplicaProperties.ValidatedSetsPending` | src/replica.rs:300-305 | a validation event records its counter as the sender's pending counter and changes nothing else |
| `ReplicaProperties.ValidatedIdempotent` | src/replica.rs:300-305 | applying the same validation event twice gives the same state as applying it once |
| `ReplicaProperties.ValidationAdvancesCounter` | src/replica.rs:193-207 | after an accepted validation is applied, the expected counter is one higher, and the wallets and balances are unchanged |
| `ReplicaProperties.ValidationNotRepeatable` | src/replica.rs:199-205 | validating the same request again after its event gives the "previous count" error |
| `ReplicaProperties.PendingDebitDoesNotReduceBalance` | src/replica.rs:208-215 | the next debit, while one is pending, is checked against the same registered balance and is accepted when it fits |
| `ReplicaProperties.TestValidateAcceptsValidated` | src/replica.rs:154-170 | the bypass gives the same result as a full validation that succeeds |
| `ReplicaProperties.RegisteredAppends` | src/replica.rs:307-313 | applying a registration fails with the empty message without a sender wallet and with `InsufficientBalance` on an overdraft; otherwise the new state is the old one with the debit appended to the sender's wallet, and nothing else changed |
| `ReplicaProperties.RegisterOnce` | src/replica.rs:244-251 | applying a registration fails with `InsufficientBalance` exactly when it is a debit to another wallet larger than the sender's balance, and succeeds otherwise; on success it appends the debit to the sender's wallet and, when the transfer is not a self-transfer, lowers its balance by the amount; the same registration afterwards is non-sequential |
| `ReplicaProperties.RegisteredWithoutSenderFails` | src/replica.rs:309-310 | a registration event for a sender with no wallet is an error |
| `ReplicaProperties.PropagatedAppends` | src/replica.rs:315-325 | a propagation event creates the recipient's wallet when it is missing and appends the transfer; nothing else changes |
| `ReplicaProperties.PropagatedCredits` | src/replica.rs:268-273 | after a propagation the proof counts as already credited, and, when the transfer is not a self-transfer, the recipient's balance has risen by the amount |
| `ReplicaProperties.PropagationClosesGenesis` | src/replica.rs:139-141 | after any propagation the replica has a wallet |
| `ReplicaProperties.DeliverTwice` | src/replica.rs:268-273 | delivering the same proof twice gives one credit and then no change; when the transfer is not a self-transfer, the balance rises by the amount once |
| `ReplicaProperties.GenesisTwice` | src/replica.rs:139-142 | once a genesis event is applied, a second genesis is refused |
| `ReplicaProperties.GroupAddedInserts` | src/replica.rs:296-298 | applying a known-group event adds the group to the known groups and leaves the rest of the state as it was |
| `ReplicaProperties.KnownGroupOnce` | src/replica.rs:147-149 | once a group is added, adding it again is a data-exists error |
| `ReplicaProperties.PastKeyIgnoredAsWritten` | src/replica.rs:419-422 | as written, a proof our key rejects is refused even when the past key is recognised, while the corrected check accepts it |
| `ReplicaProperties.RegisterAsWrittenIgnoresPastKey` | src/replica.rs:236-238 | register as written equals the corrected command with no past key, whatever `f()` answers; on a sequential proof that only a past key signed, the two differ: invalid signature as written, success as corrected |
| `ReplicaProperties.RegisterAcceptsPastKey` | src/replica.rs:236-249 | with the corrected check, a sequential debit whose key is recognised as a past key is registered |
| `ReplicaProperties.EmptyConsistent` | src/replica.rs:53-60 | the empty starting state of a replay is consistent |
| `ReplicaProperties.RegisterGapless` | src/replica.rs:244-249 | on a consistent replica a registration succeeds only with the counter equal to the sender's number of debits |
| `ReplicaProperties.ValidatedKeepsConsistent` | src/replica.rs:300-305 | applying a validation event keeps the replica consistent |
| `ReplicaProperties.GroupAddedKeepsConsistent` | src/replica.rs:296-298 | applying a known-group event keeps the replica consistent |
| `ReplicaProperties.RegisteredKeepsConsistent` | src/replica.rs:307-313 | the event of a successful registration applies exactly when it is not a debit to another wallet larger than the sender's balance, and then keeps the replica consistent |
| `ReplicaProperties.PropagatedKeepsConsistent` | src/replica.rs:315-325 | a propagation from another wallet keeps the replica consistent |
| `ReplicaProperties.ApplyEventKeepsKeyed` | src/replica.rs:294-329 | applying an event keeps every wallet stored under its own id |
| `ReplicaProperties.ApplyEventKeepsSolvent` | src/replica.rs:294-327 | applying any event keeps every balance non-negative |
| `ReplicaProperties.ApplyAllKeepsSolvent` | src/replica.rs:61-63 | replaying any history keeps every balance non-negative |
| `ReplicaProperties.ReplayedBalancesNonNegative` | src/replica.rs:53-63 | every wallet of a replica rebuilt from its history has a non-negative balance |
| `ReplicaProperties.ApplyAllKeepsKeyed` | src/replica.rs:61-63 | replaying a history keeps every wallet stored under its own id |
| `ReplicaProperties.ApplyAllConcat` | src/replica.rs:61-63 | replaying `xs + ys` is replaying `xs` and then `ys`, so live application and recovery cannot diverge |
| `ReplicaProperties.ApplyAllSnoc` | src/replica.rs:61-63 | replaying one more event is one more apply |
| `ReplicaProperties.Scenario` | src/replica.rs:133-329 | in order: genesis of 1000 to A; A's debit 0 of 400 to B validated, then refused as out of order; debit 1 of 100 validated against the balance of 1000; registering debit 0 leaves A 600; crediting it gives B 400 and marks it credited |
| `ReplicaProperties.PendingDebitsOverdraw` | src/replica.rs:173-257 | genesis of 1000 to A; debits 0 and 1 of 600 each both validate against the registered balance of 1000; both registrations are decided a success; the first applies and leaves A 400; applying the second fails with `InsufficientBalance` |

## Left out

- Serialisation (bincode) and the BLS operations are not modelled. They are the `Crypto` parameter, so encoding can fail freely and signatures are opaque values.
- `src/wallet.rs` is not part of this model. The wallet's balance, sequentiality, append and contains rules are stated as definitions in `Wallets`. A transfer that belongs to neither side of the wallet is refused as `InvalidOperation`, and a debit to another wallet larger than the balance as `InsufficientBalance`. A self-transfer is never refused for its amount, since it credits as much as it debits. These are assumptions, because the wallet's own rules and error values are not known here; `src/wallet.rs` may refuse a self-transfer debit the balance cannot cover.
- `credit_without_proof` and `debit_without_proof` (src/replica.rs:331-355) are left out. They are test helpers, built only with the simulated-payouts feature. Their wallet operations are in `src/wallet.rs`.
- `replicas_pk_set` (src/replica.rs:122-125) is left out. It is a getter that always returns the key set.
- The `debug!` logging is left out.
- The order of the known-groups hash set is left out. `FindForeignSigner` picks the groups in an unspecified order, so it promises only *some* verifying group's key, not the first one in hash order.
- `Money` is modelled as an unbounded `nat`, so overflow of its u64 is not modelled. The same goes for the u64 counter in `value + 1` (src/replica.rs:200): the source would overflow at `u64::MAX`, and the model does not.
- `Replica.Replica.Apply`: if the wallet's `append` fails, the model leaves the state unchanged. Whether the source's wallet is partly changed in that case depends on `src/wallet.rs`.
- `Consistent` is not kept by a propagated self-transfer. Validation refuses self-transfers, but receive-propagated does not check for them. Applying a credit from a wallet to itself appends a debit of that wallet with an arbitrary counter, which breaks the numbering. `ReplicaProperties.PropagatedKeepsConsistent` therefore requires sender and recipient to differ.
- Validation checks a debit only against the registered balance, not against the debits still pending. So a replica can validate a debit of 600 at counter 0 and then one of 600 at counter 1 from a balance of 1000, and registration does not re-check the balance. The modelled wallet refuses to append a debit to another wallet larger than its balance, as an unsigned `Money` balance demands. Both registrations are decided a success, and applying the second one fails with `InsufficientBalance` (`ReplicaProperties.PendingDebitsOverdraw`), although the comment on `apply` (src/replica.rs:290-293) expects every decided event to apply. Every balance stays non-negative (`ReplicaProperties.ApplyEventKeepsSolvent`). What the source's wallet does in that case is in `src/wallet.rs`, which is outside this model.
- The result type `Outcome`, defined in `src/lib.rs`, is not part of this model. Splitting the results into four kinds (`Success`, `NoChange`, `Rejected` and `Failed`) is a modelling choice. It keeps the one answer the code builds with `Outcome::rejected`, the zero amount (src/replica.rs:184-188), apart from the answers it returns as `Err`. `src/lib.rs` is outside this model, so whether a rejection is carried as an error value there is not modelled.
- Three choices of the code that the model keeps:
  - a self-transfer in validate returns `Err` ("Sender and recipient are the same."), modelled as `Failed`;
  - a non-sequential registration returns `Err`, modelled as `Failed`;
  - the source's `ReplicaEvent` has four variants, and so does the model's.

## Findings

| source | as written | input that shows it | evidently intended | confidence | as-written member | corrected member |
|---|---|---|---|---|---|---|
| src/replica.rs:419-422 | when our group's key fails and `f()` says the proof was signed with an older key, the code returns `result`, which is the failed verification | a proof whose signature our current key set does not verify, with `f()` returning true: `register` answers `InvalidSignature` | a recognised past key makes the proof valid: return `Ok(())` | not executed | `Replica.VerifyRegisteredProofAsWritten`, `Replica.RegisterAsWritten`, `ReplicaProperties.PastKeyIgnoredAsWritten`, `ReplicaProperties.RegisterAsWrittenIgnoresPastKey` | `Replica.VerifyRegisteredProof`, `Replica.Register`, `ReplicaProperties.RegisterAcceptsPastKey` |

