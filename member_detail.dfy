/**
  Recording a settlement with one trip member (src/pages/MemberDetail.tsx):
  which way the payment goes, the note attached to it, the checks on a
  partial payment, and the owing / getting back / settled standing that
  decides whether payment actions are offered.

  The net balance comes from the server's breakdown of the member
  (negative: the member owes); a missing balance counts as 0.
 */
module MemberDetail {
  import opened Common
  import opened JsText

  /** `breakdown?.netBalance || 0`. */
  function EffectiveBalance(netBalance: Option<real>): (b: real)
    ensures netBalance.None? ==> b == 0.0
    ensures netBalance.Some? ==> b == netBalance.value
  {
    if netBalance.Some? then netBalance.value else 0.0
  }

  /** The `SettlementCreateDto` sent to the API. */
  datatype SettlementRequest = SettlementRequest(
    tripId: TripId,
    fromUserId: UserId,
    toUserId: UserId,
    amount: real,
    notes: string)

  const FullPaymentNote: string := "Full payment settlement"

  /**
    The note: "Full payment settlement" exactly when the amount is the
    whole balance's magnitude, otherwise a partial-payment note.
   */
  function SettlementNote(amount: real, balance: real): (note: string)
    ensures note == FullPaymentNote <==> amount == Abs(balance)
    ensures amount != Abs(balance) ==> note == "Partial payment: ₱" + Fixed2(amount)
  {
    if amount == Abs(balance) then FullPaymentNote
    else
      var partial := "Partial payment: ₱" + Fixed2(amount);
      assert partial[0] == 'P' && FullPaymentNote[0] == 'F';
      partial
  }

  /**
    The settlement for `amount` between the viewed member and the signed-in
    user. A negative balance sends the payment from the member to the
    signed-in user; any other balance, a missing one included, the other
    way round. The amount is passed through unchanged, and the note is the
    full-payment note exactly when it is the whole balance's magnitude.
   */
  function Settlement(tripId: TripId, member: UserId, current: UserId, netBalance: Option<real>, amount: real): (s: SettlementRequest)
    ensures s.tripId == tripId && s.amount == amount
    ensures EffectiveBalance(netBalance) < 0.0 ==> s.fromUserId == member && s.toUserId == current
    ensures EffectiveBalance(netBalance) >= 0.0 ==> s.fromUserId == current && s.toUserId == member
    ensures netBalance.None? ==> s.fromUserId == current && s.toUserId == member
    ensures s.notes == FullPaymentNote <==> amount == Abs(EffectiveBalance(netBalance))
    ensures amount != Abs(EffectiveBalance(netBalance)) ==> s.notes == "Partial payment: ₱" + Fixed2(amount)
  {
    var balance := EffectiveBalance(netBalance);
    var memberOwes := balance < 0.0;
    SettlementRequest(
      tripId,
      if memberOwes then member else current,
      if memberOwes then current else member,
      amount,
      SettlementNote(amount, balance))
  }

  /** `handleFullPayment`: the amount paid is the magnitude of the balance. */
  function FullPayment(tripId: TripId, member: UserId, current: UserId, netBalance: Option<real>): SettlementRequest {
    Settlement(tripId, member, current, netBalance, Abs(EffectiveBalance(netBalance)))
  }

  /** A full payment clears exactly the balance, is never negative, and carries the full-payment note. */
  lemma FullPaymentClears(tripId: TripId, member: UserId, current: UserId, netBalance: Option<real>)
    ensures var s := FullPayment(tripId, member, current, netBalance);
      && s.amount >= 0.0
      && (s.amount == EffectiveBalance(netBalance) || s.amount == -EffectiveBalance(netBalance))
      && s.notes == FullPaymentNote
  {
  }

  // ---------------------------------------------------------------------
  // Partial payments
  // ---------------------------------------------------------------------

  datatype PartialError = InvalidAmount | ExceedsBalance(limit: real)

  function PartialMessage(e: PartialError): string {
    match e
    case InvalidAmount => "Please enter a valid amount"
    case ExceedsBalance(limit) => "Amount cannot exceed ₱" + Fixed2(limit)
  }

  /**
    The checks of `handlePartialPayment` on the typed amount, in source
    order. A partial payment is accepted exactly when a positive amount no
    larger than the balance's magnitude was typed; an empty or non-positive
    amount is reported first, an excessive one names the magnitude as the
    limit.
   */
  function CheckPartial(input: NumberInput, netBalance: Option<real>): (r: Result<real, PartialError>)
    ensures r.Ok? <==> input.Number? && 0.0 < input.value <= Abs(EffectiveBalance(netBalance))
    ensures r.Ok? ==> r.value == input.value
    ensures r == Err(InvalidAmount) <==> input.Empty? || input.value <= 0.0
    ensures r.Err? && r.error.ExceedsBalance? ==> r.error.limit == Abs(EffectiveBalance(netBalance))
  {
    var limit := Abs(EffectiveBalance(netBalance));
    match input
    case Empty => Err(InvalidAmount)
    case Number(v) =>
      if v <= 0.0 then Err(InvalidAmount)
      else if v > limit then Err(ExceedsBalance(limit))
      else Ok(v)
  }

  /** With a settled (or missing) balance every partial payment is refused. */
  lemma SettledRefusesPartial(input: NumberInput, netBalance: Option<real>)
    requires EffectiveBalance(netBalance) == 0.0
    ensures CheckPartial(input, netBalance).Err?
  {
  }

  /** An accepted partial payment of the whole balance is recorded as a full payment. */
  lemma PartialOfWholeIsFull(tripId: TripId, member: UserId, current: UserId, input: NumberInput, netBalance: Option<real>)
    requires CheckPartial(input, netBalance).Ok?
    ensures var s := Settlement(tripId, member, current, netBalance, CheckPartial(input, netBalance).value);
      (s.notes == FullPaymentNote <==> s == FullPayment(tripId, member, current, netBalance))
  {
  }

  /** The "Record Payment" button is disabled for an empty or non-positive amount. */
  predicate RecordDisabled(input: NumberInput) {
    input.Empty? || input.value <= 0.0
  }

  /** An enabled button never yields the "valid amount" error; only the balance limit remains. */
  lemma RecordEnabledIff(input: NumberInput, netBalance: Option<real>)
    ensures !RecordDisabled(input) <==> CheckPartial(input, netBalance) != Err(InvalidAmount)
  {
  }

  // ---------------------------------------------------------------------
  // Standing
  // ---------------------------------------------------------------------

  datatype Standing = Owing | GettingBack | Settled

  /** `isOwing` / `isGettingBack` / `isSettled`: exactly one holds, by the sign of the balance. */
  function StandingOf(balance: real): (st: Standing)
    ensures st == Owing <==> balance < 0.0
    ensures st == GettingBack <==> balance > 0.0
    ensures st == Settled <==> balance == 0.0
  {
    if balance < 0.0 then Owing else if balance > 0.0 then GettingBack else Settled
  }

  /** The header's standing label; each label names exactly one standing. */
  function StandingLabel(s: Standing): (text: string)
    ensures text == "Owes" <==> s == Owing
    ensures text == "Gets back" <==> s == GettingBack
    ensures text == "Settled" <==> s == Settled
  {
    match s
    case Owing => "Owes"
    case GettingBack => "Gets back"
    case Settled => "Settled"
  }

  /** The full and partial payment buttons are rendered only for an owing member. */
  predicate PaymentActionsShown(balance: real) {
    StandingOf(balance) == Owing
  }

  /**
    Payment actions are offered exactly when the member owes, which is
    exactly when a settlement would be paid by the member.
   */
  lemma ActionsIffMemberPays(tripId: TripId, member: UserId, current: UserId, netBalance: Option<real>, amount: real)
    ensures var b := EffectiveBalance(netBalance);
      && (PaymentActionsShown(b) <==> b < 0.0)
      && (member != current ==>
            (PaymentActionsShown(b) <==> Settlement(tripId, member, current, netBalance, amount).fromUserId == member))
  {
  }

  // ---------------------------------------------------------------------
  // The page's state, updated in place
  // ---------------------------------------------------------------------

  /** The partial-payment modal and the amount typed into it, for one member of one trip. */
  class PaymentPanel {
    const tripId: TripId
    /** The viewed member (`memberId`). */
    const member: UserId
    /** The signed-in user (`currentAuth.userId`). */
    const current: UserId
    /** The loaded `breakdown.netBalance`. */
    const netBalance: Option<real>

    var showPaymentModal: bool
    var paymentAmount: NumberInput

    constructor (tripId: TripId, member: UserId, current: UserId, netBalance: Option<real>)
      ensures this.tripId == tripId && this.member == member && this.current == current
      ensures this.netBalance == netBalance
      ensures !showPaymentModal && paymentAmount == Empty
    {
      this.tripId := tripId;
      this.member := member;
      this.current := current;
      this.netBalance := netBalance;
      showPaymentModal := false;
      paymentAmount := Empty;
    }

    /** "Record Partial Payment". */
    method OpenModal()
      modifies this
      ensures showPaymentModal && paymentAmount == old(paymentAmount)
    {
      showPaymentModal := true;
    }

    /** Typing into the amount field. */
    method EnterAmount(value: NumberInput)
      modifies this
      ensures paymentAmount == value && showPaymentModal == old(showPaymentModal)
    {
      paymentAmount := value;
    }

    /** The backdrop, the close button and "Cancel" all close the modal and clear the amount. */
    method Dismiss()
      modifies this
      ensures !showPaymentModal && paymentAmount == Empty
    {
      showPaymentModal := false;
      paymentAmount := Empty;
    }

    /** `handleFullPayment`: the settlement sent; the modal and amount are untouched. */
    method HandleFullPayment() returns (request: SettlementRequest)
      ensures request == FullPayment(tripId, member, current, netBalance)
      ensures request.amount == Abs(EffectiveBalance(netBalance)) && request.notes == FullPaymentNote
    {
      request := Settlement(tripId, member, current, netBalance, Abs(EffectiveBalance(netBalance)));
    }

    /**
      `handlePartialPayment`: either the error shown, with nothing changed,
      or the settlement sent, after which the modal is closed and cleared.
     */
    method HandlePartialPayment() returns (r: Result<SettlementRequest, PartialError>)
      modifies this
      ensures r.Err? ==> CheckPartial(old(paymentAmount), netBalance) == Err(r.error)
      ensures r.Err? ==> showPaymentModal == old(showPaymentModal) && paymentAmount == old(paymentAmount)
      ensures r.Ok? <==> CheckPartial(old(paymentAmount), netBalance).Ok?
      ensures r.Ok? ==>
        && r.value == Settlement(tripId, member, current, netBalance, old(paymentAmount).value)
        && 0.0 < r.value.amount <= Abs(EffectiveBalance(netBalance))
        && !showPaymentModal && paymentAmount == Empty
    {
      var limit := Abs(EffectiveBalance(netBalance));
      if paymentAmount.Empty? || paymentAmount.value <= 0.0 {
        return Err(InvalidAmount);
      }
      var amount := paymentAmount.value;
      if amount > limit {
        return Err(ExceedsBalance(limit));
      }
      r := Ok(Settlement(tripId, member, current, netBalance, amount));
      showPaymentModal := false;
      paymentAmount := Empty;
    }
  }
}
