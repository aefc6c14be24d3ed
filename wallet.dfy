/**
 * The per-wallet ledger the replica keeps for each wallet id: an append-only
 * history of transfers in which the wallet is the recipient (a credit) or the
 * sender (a debit), with a balance derived from it.
 *
 * The wallet's own implementation is not part of this model. The definitions
 * below are the contract the replica relies on, stated as assumptions: the
 * balance is the sum of credits minus the sum of debits, a debit is sequential
 * when its counter continues the wallet's own debit counters, and appending
 * accepts only transfers the wallet takes part in, except a debit to another
 * wallet that the balance cannot cover. The wallet's own error values are not
 * known here; the model uses `InvalidOperation` and `InsufficientBalance`.
 */
module Wallets {
  import opened DataTypes

  datatype Wallet = Wallet(id: PublicKey, history: seq<Transfer>)

  /** The two sides a wallet can be on in a transfer. */
  datatype Side = Credit | Debit

  predicate OnSide(owner: PublicKey, t: Transfer, side: Side)
  {
    match side
    case Credit => t.to == owner
    case Debit => t.id.actor == owner
  }

  /** A wallet with no history: nothing credited or debited, a zero balance, no known transfer id. */
  function New(id: PublicKey): (w: Wallet)
    ensures w.id == id && w.history == []
    ensures Credits(w) == [] && Debits(w) == [] && Balance(w) == 0 && NextDebitCounter(w) == 0
    ensures forall tid :: !Contains(w, tid)
  {
    Wallet(id, [])
  }

  /** The entries of `ts` on `side` for `owner`, in history order. */
  function Entries(owner: PublicKey, ts: seq<Transfer>, side: Side): (r: seq<Transfer>)
    ensures |r| <= |ts|
    ensures forall i :: 0 <= i < |r| ==> OnSide(owner, r[i], side) && r[i] in ts
    decreases |ts|
  {
    if ts == [] then []
    else
      var init, last := ts[..|ts| - 1], ts[|ts| - 1];
      assert forall x :: x in init ==> x in ts;
      Entries(owner, init, side) + (if OnSide(owner, last, side) then [last] else [])
  }

  function Credits(w: Wallet): seq<Transfer> { Entries(w.id, w.history, Credit) }

  function Debits(w: Wallet): seq<Transfer> { Entries(w.id, w.history, Debit) }

  /** The total amount of a sequence of transfers. */
  function Sum(ts: seq<Transfer>): nat
    decreases |ts|
  {
    if ts == [] then 0 else Sum(ts[..|ts| - 1]) + ts[|ts| - 1].amount
  }

  /** Credits minus debits. */
  function Balance(w: Wallet): (b: int)
    ensures w.history == [] ==> b == 0
    ensures Debits(w) == [] ==> b >= 0
  {
    Sum(Credits(w)) - Sum(Debits(w))
  }

  /** Is a transfer with this id already recorded? */
  predicate Contains(w: Wallet, id: TransferId)
    ensures Contains(w, id) <==> id in (set t | t in w.history :: t.id)
    ensures w.history == [] ==> !Contains(w, id)
  {
    exists i :: 0 <= i < |w.history| && w.history[i].id == id
  }

  /** The counter the next debit of this wallet must carry. */
  function NextDebitCounter(w: Wallet): nat
  {
    var ds := Debits(w);
    if ds == [] then 0 else ds[|ds| - 1].id.counter + 1
  }

  /**
   * Does `t` continue this wallet's debit sequence? An error when `t` is not a
   * debit of this wallet.
   */
  function IsSequential(w: Wallet, t: Transfer): (r: Result<bool, Error>)
    ensures r.Ok? <==> t.id.actor == w.id
    ensures r.Ok? ==> (r.value <==> t.id.counter == NextDebitCounter(w))
  {
    if t.id.actor != w.id then Err(InvalidOperation)
    else Ok(t.id.counter == NextDebitCounter(w))
  }

  /** A debit to another wallet for more than this wallet's balance: the unsigned balance cannot cover it. */
  predicate Overdraws(w: Wallet, t: Transfer)
  {
    t.id.actor == w.id && t.to != w.id && t.amount > Balance(w)
  }

  /**
   * Record `t`, which must credit or debit this wallet; a debit to another
   * wallet that the balance cannot cover is refused.
   */
  function Append(w: Wallet, t: Transfer): (r: Result<Wallet, Error>)
    ensures r.Ok? <==> (OnSide(w.id, t, Credit) || OnSide(w.id, t, Debit)) && !Overdraws(w, t)
    ensures r.Ok? ==> r.value.id == w.id && r.value.history == w.history + [t]
    ensures r.Err? ==> r.error == (if Overdraws(w, t) then InsufficientBalance else InvalidOperation)
  {
    if t.to != w.id && t.id.actor != w.id then Err(InvalidOperation)
    else if t.to != w.id && t.amount > Balance(w) then Err(InsufficientBalance)
    else Ok(Wallet(w.id, w.history + [t]))
  }

  /** The credits from position `index` of the credit list on (none past its end). */
  function CreditsSince(w: Wallet, index: nat): (r: seq<Transfer>)
    ensures index <= |Credits(w)| ==> |r| == |Credits(w)| - index
    ensures index > |Credits(w)| ==> r == []
    ensures forall k :: 0 <= k < |r| ==> r[k] == Credits(w)[index + k] && r[k].to == w.id
  {
    var cs := Credits(w);
    if index <= |cs| then cs[index..] else []
  }

  /** The debits from position `index` of the debit list on (none past its end). */
  function DebitsSince(w: Wallet, index: nat): (r: seq<Transfer>)
    ensures index <= |Debits(w)| ==> |r| == |Debits(w)| - index
    ensures index > |Debits(w)| ==> r == []
    ensures forall k :: 0 <= k < |r| ==> r[k] == Debits(w)[index + k] && r[k].id.actor == w.id
  {
    var ds := Debits(w);
    if index <= |ds| then ds[index..] else []
  }

  /** The wallet's debits carry the counters 0, 1, 2, ... in order. */
  predicate DebitsNumbered(w: Wallet)
  {
    var ds := Debits(w);
    forall i :: 0 <= i < |ds| ==> ds[i].id.counter == i
  }

  // ---------------------------------------------------------------------
  // Lemmas about the ledger
  // ---------------------------------------------------------------------

  lemma EntriesAppend(owner: PublicKey, ts: seq<Transfer>, t: Transfer, side: Side)
    ensures Entries(owner, ts + [t], side) == Entries(owner, ts, side) + (if OnSide(owner, t, side) then [t] else [])
  {
    assert (ts + [t])[..|ts|] == ts;
  }

  lemma SumAppend(ts: seq<Transfer>, t: Transfer)
    ensures Sum(ts + [t]) == Sum(ts) + t.amount
  {
    assert (ts + [t])[..|ts|] == ts;
  }

  /** Appending extends the credit list when the wallet is the recipient, and the debit list when it is the sender. */
  lemma AppendEntries(w: Wallet, t: Transfer)
    requires Append(w, t).Ok?
    ensures Credits(Append(w, t).value) == Credits(w) + (if t.to == w.id then [t] else [])
    ensures Debits(Append(w, t).value) == Debits(w) + (if t.id.actor == w.id then [t] else [])
  {
    EntriesAppend(w.id, w.history, t, Credit);
    EntriesAppend(w.id, w.history, t, Debit);
  }

  /** Appending adds the amount to the balance on the credit side and takes it off on the debit side. */
  lemma AppendBalance(w: Wallet, t: Transfer)
    requires Append(w, t).Ok?
    ensures Balance(Append(w, t).value)
         == Balance(w) + (if t.to == w.id then t.amount else 0) - (if t.id.actor == w.id then t.amount else 0)
  {
    var w' := Append(w, t).value;
    AppendEntries(w, t);
    if t.to == w.id {
      SumAppend(Credits(w), t);
    } else {
      assert Credits(w') == Credits(w);
    }
    if t.id.actor == w.id {
      SumAppend(Debits(w), t);
    } else {
      assert Debits(w') == Debits(w);
    }
  }

  /** After appending, the wallet contains the transfer's id, and still every id it held. */
  lemma AppendContains(w: Wallet, t: Transfer, id: TransferId)
    requires Append(w, t).Ok?
    ensures Contains(Append(w, t).value, id) <==> Contains(w, id) || id == t.id
  {
    var h' := Append(w, t).value.history;
    if Contains(w, id) {
      var i :| 0 <= i < |w.history| && w.history[i].id == id;
      assert h'[i] == w.history[i];
    }
    if id == t.id {
      assert h'[|w.history|] == t;
    }
    if Contains(Append(w, t).value, id) && id != t.id {
      var i :| 0 <= i < |h'| && h'[i].id == id;
      assert i < |w.history| && w.history[i] == h'[i];
    }
  }

  /** On a wallet whose debits are numbered, the next debit is the one whose counter is their count. */
  lemma NumberedNextCounter(w: Wallet)
    requires DebitsNumbered(w)
    ensures NextDebitCounter(w) == |Debits(w)|
  {
  }

  /** A sequential debit is appended unless it overdraws, and appending it keeps the debits numbered. */
  lemma AppendKeepsNumbered(w: Wallet, t: Transfer)
    requires DebitsNumbered(w)
    requires IsSequential(w, t) == Ok(true)
    ensures Append(w, t).Ok? <==> !Overdraws(w, t)
    ensures Append(w, t).Ok? ==> DebitsNumbered(Append(w, t).value)
  {
    if Append(w, t).Ok? {
      AppendEntries(w, t);
      NumberedNextCounter(w);
    }
  }

  /** Appending a credit from another wallet leaves the debits, hence their numbering, alone. */
  lemma AppendCreditKeepsNumbered(w: Wallet, t: Transfer)
    requires DebitsNumbered(w)
    requires t.to == w.id && t.id.actor != w.id
    ensures Append(w, t).Ok? && DebitsNumbered(Append(w, t).value)
  {
    AppendEntries(w, t);
  }

  /** A debit just appended is not sequential a second time: its counter is now behind. */
  lemma AppendedDebitNotSequential(w: Wallet, t: Transfer)
    requires Append(w, t).Ok? && t.id.actor == w.id
    ensures IsSequential(Append(w, t).value, t) == Ok(false)
  {
    AppendEntries(w, t);
  }

  /** An append never takes a non-negative balance below zero. */
  lemma AppendKeepsSolvent(w: Wallet, t: Transfer)
    requires Balance(w) >= 0
    requires Append(w, t).Ok?
    ensures Balance(Append(w, t).value) >= 0
  {
    AppendBalance(w, t);
  }
}
