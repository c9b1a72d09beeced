/**
  The add/edit expense form (src/pages/AddExpense.tsx): the member lists the
  user toggles, the ordered checks run on submit, the `splits` payload sent
  for each split type, and the restrictions on an expense that already has
  settlements ("locked").

  Amounts are idealised as exact reals (the source uses JavaScript numbers).
 */
module AddExpense {
  import opened Common

  datatype SplitType = Equal | Custom | PaidFor

  /** The `splitType` string sent to the API. */
  function SplitTypeName(t: SplitType): string {
    match t
    case Equal => "Equal"
    case Custom => "Custom"
    case PaidFor => "PaidFor"
  }

  // ---------------------------------------------------------------------
  // Toggling a member in or out of a list
  // ---------------------------------------------------------------------

  /** No id occurs twice. */
  predicate Distinct(ids: seq<UserId>) {
    forall i, j :: 0 <= i < j < |ids| ==> ids[i] != ids[j]
  }

  /** `ids.filter((x) => x !== id)`. */
  function RemoveAll(ids: seq<UserId>, id: UserId): (r: seq<UserId>)
    ensures |r| <= |ids|
    ensures forall x :: x in r <==> x in ids && x != id
  {
    if ids == [] then []
    else (if ids[0] == id then [] else [ids[0]]) + RemoveAll(ids[1..], id)
  }

  /** Filtering drops every copy of `id` and keeps every other id as often as it occurred. */
  lemma {:induction false} RemoveAllCounts(ids: seq<UserId>, id: UserId)
    ensures multiset(RemoveAll(ids, id))[id] == 0
    ensures forall x :: x != id ==> multiset(RemoveAll(ids, id))[x] == multiset(ids)[x]
  {
    if ids != [] {
      RemoveAllCounts(ids[1..], id);
      var head := if ids[0] == id then [] else [ids[0]];
      assert multiset(RemoveAll(ids, id)) == multiset(head) + multiset(RemoveAll(ids[1..], id));
      assert ids == [ids[0]] + ids[1..];
      assert multiset(ids) == multiset([ids[0]]) + multiset(ids[1..]);
    }
  }

  /**
    The list update inside `toggleMember`: a present id loses every copy,
    an absent one is appended at the end; no other id changes its number
    of occurrences.
   */
  function Toggle(ids: seq<UserId>, id: UserId): (r: seq<UserId>)
    ensures id in r <==> id !in ids
    ensures id !in ids ==> r == ids + [id]
    ensures forall x :: x != id ==> multiset(r)[x] == multiset(ids)[x]
  {
    RemoveAllCounts(ids, id);
    if id in ids then RemoveAll(ids, id) else ids + [id]
  }

  lemma {:induction false} RemoveAllAbsent(ids: seq<UserId>, id: UserId)
    requires id !in ids
    ensures RemoveAll(ids, id) == ids
  {
    if ids != [] {
      RemoveAllAbsent(ids[1..], id);
    }
  }

  lemma {:induction false} RemoveAllAppend(ids: seq<UserId>, x: UserId, id: UserId)
    ensures RemoveAll(ids + [x], id) == RemoveAll(ids, id) + (if x == id then [] else [x])
  {
    var tail: seq<UserId> := if x == id then [] else [x];
    if ids == [] {
      assert ids + [x] == [x];
      assert RemoveAll([x], id) == tail + RemoveAll([], id);
    } else {
      var head: seq<UserId> := if ids[0] == id then [] else [ids[0]];
      var rest := ids[1..];
      assert (ids + [x])[0] == ids[0];
      assert (ids + [x])[1..] == rest + [x];
      RemoveAllAppend(rest, x, id);
      assert RemoveAll(ids + [x], id) == head + (RemoveAll(rest, id) + tail);
      assert RemoveAll(ids, id) == head + RemoveAll(rest, id);
      assert head + (RemoveAll(rest, id) + tail) == (head + RemoveAll(rest, id)) + tail;
    }
  }

  /** The ids other than the toggled one keep their relative order. */
  lemma ToggleKeepsOthersInOrder(ids: seq<UserId>, id: UserId)
    ensures RemoveAll(Toggle(ids, id), id) == RemoveAll(ids, id)
  {
    if id in ids {
      RemoveAllAbsent(RemoveAll(ids, id), id);
    } else {
      RemoveAllAppend(ids, id, id);
    }
  }

  /**
    Toggling the same id twice restores the set of ids; when the id was
    absent it restores the exact list, when present it moves to the end.
   */
  lemma ToggleTwice(ids: seq<UserId>, id: UserId)
    ensures forall x :: x in Toggle(Toggle(ids, id), id) <==> x in ids
    ensures id !in ids ==> Toggle(Toggle(ids, id), id) == ids
    ensures id in ids ==> Toggle(Toggle(ids, id), id) == RemoveAll(ids, id) + [id]
  {
    if id !in ids {
      RemoveAllAppend(ids, id, id);
      RemoveAllAbsent(ids, id);
    }
  }

  // ---------------------------------------------------------------------
  // Custom amounts and the splits payload
  // ---------------------------------------------------------------------

  /** The custom amount field of a member; fields never typed in are empty. */
  function Entered(custom: map<UserId, NumberInput>, id: UserId): NumberInput {
    if id in custom then custom[id] else Empty
  }

  /**
    `calculateTotal()`: the sum of the custom fields, an empty field counting
    as 0. Summed along the roster, which holds each member once, so each
    field is counted once. Untouched fields total 0; fields holding no
    negative amount never total less than 0.
   */
  function CustomTotal(roster: seq<UserId>, custom: map<UserId, NumberInput>): (total: real)
    ensures (forall k :: 0 <= k < |roster| ==> Entered(custom, roster[k]).Empty?) ==> total == 0.0
    ensures (forall k :: 0 <= k < |roster| ==> ParseOrZero(Entered(custom, roster[k])) >= 0.0) ==> total >= 0.0
  {
    if roster == [] then 0.0
    else ParseOrZero(Entered(custom, roster[0])) + CustomTotal(roster[1..], custom)
  }

  lemma {:induction false} CustomTotalAppend(a: seq<UserId>, b: seq<UserId>, custom: map<UserId, NumberInput>)
    ensures CustomTotal(a + b, custom) == CustomTotal(a, custom) + CustomTotal(b, custom)
  {
    if a == [] {
      assert a + b == b;
    } else {
      assert (a + b)[1..] == a[1..] + b;
      CustomTotalAppend(a[1..], b, custom);
    }
  }

  /** Taking out the field at position `k` takes its amount out of the total. */
  lemma CustomTotalRemove(r: seq<UserId>, k: nat, custom: map<UserId, NumberInput>)
    requires k < |r|
    ensures CustomTotal(r, custom) == ParseOrZero(Entered(custom, r[k])) + CustomTotal(r[..k] + r[k + 1..], custom)
  {
    assert r == r[..k] + ([r[k]] + r[k + 1..]);
    CustomTotalAppend(r[..k], [r[k]] + r[k + 1..], custom);
    assert ([r[k]] + r[k + 1..])[1..] == r[k + 1..];
    CustomTotalAppend(r[..k], r[k + 1..], custom);
  }

  /** Taking the first member of `r1` out of both rearrangements leaves rearrangements. */
  lemma RestsPermute(r1: seq<UserId>, r2: seq<UserId>, k: nat)
    requires 0 < |r1| && k < |r2| && r2[k] == r1[0]
    requires multiset(r1) == multiset(r2)
    ensures multiset(r1[1..]) == multiset(r2[..k] + r2[k + 1..])
  {
    assert r1 == [r1[0]] + r1[1..];
    assert r2 == r2[..k] + [r2[k]] + r2[k + 1..];
    var others := multiset(r1) - multiset{r1[0]};
    assert multiset(r1[1..]) == others;
    assert multiset(r2[..k] + r2[k + 1..]) == others;
  }

  /** Summing the custom fields in any order of the same members gives the same total. */
  lemma {:induction false} CustomTotalPermutation(r1: seq<UserId>, r2: seq<UserId>, custom: map<UserId, NumberInput>)
    requires multiset(r1) == multiset(r2)
    ensures CustomTotal(r1, custom) == CustomTotal(r2, custom)
    decreases |r1|
  {
    if r1 == [] {
      assert |r2| == |multiset(r2)| == 0;
    } else {
      assert r1[0] in r2 by {
        assert r1[0] in multiset(r1);
      }
      var k :| 0 <= k < |r2| && r2[k] == r1[0];
      RestsPermute(r1, r2, k);
      CustomTotalRemove(r2, k, custom);
      CustomTotalPermutation(r1[1..], r2[..k] + r2[k + 1..], custom);
    }
  }

  /** A sequence listing each member once holds each of them exactly once. */
  lemma {:induction false} DistinctCount(ids: seq<UserId>, x: UserId)
    requires Distinct(ids)
    ensures multiset(ids)[x] == if x in ids then 1 else 0
  {
    if ids != [] {
      assert ids == [ids[0]] + ids[1..];
      assert Distinct(ids[1..]) by {
        forall i, j | 0 <= i < j < |ids[1..]| ensures ids[1..][i] != ids[1..][j] {
          assert ids[1..][i] == ids[i + 1] && ids[1..][j] == ids[j + 1];
        }
      }
      DistinctCount(ids[1..], x);
      if ids[0] == x {
        assert x !in ids[1..] by {
          forall k | 0 <= k < |ids[1..]| ensures ids[1..][k] != x {
            assert ids[1..][k] == ids[k + 1];
          }
        }
      }
    }
  }

  /**
    While the form keeps its invariant (the roster lists each member once
    and the custom fields are exactly the members'), `CustomTotal` is the
    sum of the custom fields object: summing along any other listing of
    the fields, each once, gives the same total, as `Object.values` does
    in whatever order it yields them.
   */
  lemma FieldsTotalIsOrderFree(roster: seq<UserId>, order: seq<UserId>, custom: map<UserId, NumberInput>)
    requires Distinct(roster) && custom.Keys == set u | u in roster
    requires Distinct(order) && custom.Keys == set u | u in order
    ensures CustomTotal(order, custom) == CustomTotal(roster, custom)
  {
    forall x | true ensures multiset(order)[x] == multiset(roster)[x] {
      DistinctCount(order, x);
      DistinctCount(roster, x);
      assert x in order <==> x in custom.Keys;
      assert x in roster <==> x in custom.Keys;
    }
    assert multiset(order) == multiset(roster);
    CustomTotalPermutation(order, roster, custom);
  }

  /** One element of the `splits` payload. */
  datatype SplitEntry = SplitEntry(userId: UserId, amount: real)

  function SumAmounts(splits: seq<SplitEntry>): real {
    if splits == [] then 0.0 else splits[0].amount + SumAmounts(splits[1..])
  }

  /** The PaidFor payload: each paid-for member, in list order, owes an equal share. */
  function PaidForSplits(paidFor: seq<UserId>, amount: real): (r: seq<SplitEntry>)
    requires |paidFor| > 0
    ensures |r| == |paidFor|
    ensures forall i :: 0 <= i < |r| ==> r[i] == SplitEntry(paidFor[i], amount / |paidFor| as real)
  {
    seq(|paidFor|, i requires 0 <= i < |paidFor| => SplitEntry(paidFor[i], amount / |paidFor| as real))
  }

  /** The Custom payload: one entry per trip member, in roster order, with the entered amount or 0. */
  function CustomSplits(roster: seq<UserId>, custom: map<UserId, NumberInput>): (r: seq<SplitEntry>)
    ensures |r| == |roster|
    ensures forall i :: 0 <= i < |r| ==> r[i] == SplitEntry(roster[i], ParseOrZero(Entered(custom, roster[i])))
  {
    seq(|roster|, i requires 0 <= i < |roster| => SplitEntry(roster[i], ParseOrZero(Entered(custom, roster[i]))))
  }

  lemma {:induction false} SumOfEqualShares(splits: seq<SplitEntry>, share: real)
    requires forall i :: 0 <= i < |splits| ==> splits[i].amount == share
    ensures SumAmounts(splits) == |splits| as real * share
  {
    if splits != [] {
      SumOfEqualShares(splits[1..], share);
    }
  }

  /** The PaidFor shares add up to the whole expense. */
  lemma PaidForSplitsSum(paidFor: seq<UserId>, amount: real)
    requires |paidFor| > 0
    ensures SumAmounts(PaidForSplits(paidFor, amount)) == amount
  {
    var n := |paidFor| as real;
    SumOfEqualShares(PaidForSplits(paidFor, amount), amount / n);
    assert n * (amount / n) == amount;
  }

  /** The Custom payload adds up to what `calculateTotal` checked. */
  lemma {:induction false} CustomSplitsSum(roster: seq<UserId>, custom: map<UserId, NumberInput>)
    ensures SumAmounts(CustomSplits(roster, custom)) == CustomTotal(roster, custom)
  {
    if roster != [] {
      CustomSplitsSum(roster[1..], custom);
      assert CustomSplits(roster, custom)[1..] == CustomSplits(roster[1..], custom);
    }
  }

  // ---------------------------------------------------------------------
  // Submitting
  // ---------------------------------------------------------------------

  /** The description, amount and payer fields (`expenseData`). */
  datatype ExpenseDraft = ExpenseDraft(description: string, amount: NumberInput, paidBy: Option<UserId>)

  /** Everything `handleSubmit` reads. `roster` lists the trip members' user ids. */
  datatype FormState = FormState(
    roster: seq<UserId>,
    splitType: SplitType,
    selected: seq<UserId>,
    paidFor: seq<UserId>,
    custom: map<UserId, NumberInput>,
    draft: ExpenseDraft)

  /** The `ExpenseCreateDto` sent on create (POST) or edit (PUT). */
  datatype ExpenseRequest = ExpenseRequest(
    amount: real,
    description: string,
    paidByUserId: UserId,
    splitType: SplitType,
    tripId: TripId,
    category: string,
    splits: Option<seq<SplitEntry>>)

  /** The reasons `handleSubmit` stops without sending a request. */
  datatype FormError = MissingFields | NoMembersSelected | NoPaidForSelected | CustomMismatch

  function ErrorMessage(e: FormError): string {
    match e
    case MissingFields => "Please fill in all required fields"
    case NoMembersSelected => "Select at least one member to split with"
    case NoPaidForSelected => "Select at least one person this was paid for"
    case CustomMismatch => "Custom amounts must match total expense amount"
  }

  predicate MissingRequired(d: ExpenseDraft) {
    d.description == "" || d.amount.Empty? || d.paidBy.None?
  }

  /** Custom amounts are off by more than a cent from the expense amount. */
  predicate CustomOff(f: FormState)
    requires f.draft.amount.Number?
  {
    Abs(CustomTotal(f.roster, f.custom) - f.draft.amount.value) > 0.01
  }

  /**
    `handleSubmit`: the checks in source order, then the request. A request
    is built exactly when the required fields are filled and the chosen
    split type's own check passes.
   */
  function Submit(f: FormState, tripId: TripId): (r: Result<ExpenseRequest, FormError>)
    ensures r.Ok? <==>
      && !MissingRequired(f.draft)
      && (f.splitType == Equal ==> f.selected != [])
      && (f.splitType == PaidFor ==> f.paidFor != [])
      && (f.splitType == Custom ==> !CustomOff(f))
  {
    if MissingRequired(f.draft) then
      Err(MissingFields)
    else if f.splitType == Equal && |f.selected| == 0 then
      Err(NoMembersSelected)
    else if f.splitType == PaidFor && |f.paidFor| == 0 then
      Err(NoPaidForSelected)
    else if f.splitType == Custom && CustomOff(f) then
      Err(CustomMismatch)
    else
      var amount := f.draft.amount.value;
      var splits :=
        match f.splitType
        case Equal => None
        case PaidFor => Some(PaidForSplits(f.paidFor, amount))
        case Custom => Some(CustomSplits(f.roster, f.custom));
      Ok(ExpenseRequest(amount, f.draft.description, f.draft.paidBy.value, f.splitType, tripId, "", splits))
  }

  /**
    The checks run in source order and the first failing one is reported;
    a request is built only when all of them pass.
   */
  lemma SubmitChecksInOrder(f: FormState, tripId: TripId)
    ensures Submit(f, tripId) == Err(MissingFields) <==> MissingRequired(f.draft)
    ensures Submit(f, tripId) == Err(NoMembersSelected) <==>
      !MissingRequired(f.draft) && f.splitType == Equal && f.selected == []
    ensures Submit(f, tripId) == Err(NoPaidForSelected) <==>
      !MissingRequired(f.draft) && f.splitType == PaidFor && f.paidFor == []
    ensures Submit(f, tripId) == Err(CustomMismatch) <==>
      !MissingRequired(f.draft) && f.splitType == Custom && CustomOff(f)
  {
  }

  /**
    What an accepted submission sends: the form's amount, description and
    payer; no splits for Equal; for PaidFor an equal share per paid-for
    member that adds up to the amount; for Custom one entry per trip member
    whose total is within a cent of the amount.
   */
  lemma AcceptedRequest(f: FormState, tripId: TripId)
    requires Submit(f, tripId).Ok?
    ensures var req := Submit(f, tripId).value;
      && f.draft.amount.Number? && f.draft.paidBy.Some? && f.draft.description != ""
      && req.amount == f.draft.amount.value
      && req.description == f.draft.description
      && req.paidByUserId == f.draft.paidBy.value
      && req.splitType == f.splitType && req.tripId == tripId && req.category == ""
      && (f.splitType == Equal <==> req.splits.None?)
      && (f.splitType == Equal ==> f.selected != [])
      && (f.splitType == PaidFor ==>
            && req.splits.Some? && |req.splits.value| == |f.paidFor| > 0
            && (forall i :: 0 <= i < |f.paidFor| ==> req.splits.value[i].userId == f.paidFor[i])
            && SumAmounts(req.splits.value) == req.amount)
      && (f.splitType == Custom ==>
            && req.splits.Some? && |req.splits.value| == |f.roster|
            && (forall i :: 0 <= i < |f.roster| ==> req.splits.value[i].userId == f.roster[i])
            && Abs(SumAmounts(req.splits.value) - req.amount) <= 0.01)
  {
    var amount := f.draft.amount.value;
    if f.splitType == PaidFor {
      PaidForSplitsSum(f.paidFor, amount);
    } else if f.splitType == Custom {
      CustomSplitsSum(f.roster, f.custom);
    }
  }

  // ---------------------------------------------------------------------
  // An expense with settlements
  // ---------------------------------------------------------------------

  /** Editing an expense the server reports as having settlements. */
  predicate Locked(isEditMode: bool, hasSettlements: bool) {
    isEditMode && hasSettlements
  }

  /** The amount input and the payer select are enabled. */
  predicate AmountAndPayerEnabled(isEditMode: bool, hasSettlements: bool) {
    !(isEditMode && hasSettlements)
  }

  /** The split-method panel (and its Equal/Custom/Paid For buttons) is shown. */
  predicate SplitPanelShown(isEditMode: bool, hasSettlements: bool) {
    !isEditMode || !hasSettlements
  }

  /**
    The submit button's label: "Saving..." while the request is pending;
    otherwise "Update Description" exactly for a locked expense and
    "Add Expense" exactly outside edit mode.
   */
  function SubmitLabel(pending: bool, isEditMode: bool, hasSettlements: bool): (text: string)
    ensures pending ==> text == "Saving..."
    ensures !pending ==> (text == "Update Description" <==> Locked(isEditMode, hasSettlements))
    ensures !pending ==> (text == "Add Expense" <==> !isEditMode)
    ensures !pending && isEditMode && !hasSettlements ==> text == "Update Expense"
  {
    if pending then "Saving..."
    else if isEditMode && hasSettlements then "Update Description"
    else if isEditMode then "Update Expense"
    else "Add Expense"
  }

  /** What a click on the delete button does. */
  datatype DeleteOutcome = Refused(message: string) | Cancelled | DeleteSent

  /**
    The delete handler; `confirmed` is the answer to the confirmation
    dialog. An expense with settlements is refused whatever the answer, and
    a delete request is sent exactly after confirming one without.
   */
  function DeleteClick(hasSettlements: bool, confirmed: bool): (r: DeleteOutcome)
    ensures hasSettlements ==> r == Refused("Cannot delete expense with settlements")
    ensures r == DeleteSent <==> !hasSettlements && confirmed
    ensures r == Cancelled <==> !hasSettlements && !confirmed
  {
    if hasSettlements then Refused("Cannot delete expense with settlements")
    else if confirmed then DeleteSent
    else Cancelled
  }

  // ---------------------------------------------------------------------
  // The form's state, updated in place
  // ---------------------------------------------------------------------

  class ExpenseForm {
    const tripId: TripId
    /** The trip members' user ids, in roster order (`members`). */
    const roster: seq<UserId>
    const isEditMode: bool
    /** The loaded expense's `hasSettlements` flag. */
    const hasSettlements: bool

    var splitType: SplitType
    var selectedMembers: seq<UserId>
    var paidForMembers: seq<UserId>
    var customAmounts: map<UserId, NumberInput>
    var expenseData: ExpenseDraft

    /** Each member appears once, and the custom amount fields are exactly the members'. */
    ghost predicate Valid()
      reads this
    {
      Distinct(roster) && customAmounts.Keys == set u | u in roster
    }

    function Snapshot(): FormState
      reads this
    {
      FormState(roster, splitType, selectedMembers, paidForMembers, customAmounts, expenseData)
    }

    /** The initial state: Equal split among all members, nobody paid for, empty fields. */
    constructor (tripId: TripId, roster: seq<UserId>, isEditMode: bool, hasSettlements: bool)
      requires Distinct(roster)
      ensures Valid()
      ensures this.tripId == tripId && this.roster == roster
      ensures this.isEditMode == isEditMode && this.hasSettlements == hasSettlements
      ensures splitType == Equal && selectedMembers == roster && paidForMembers == []
      ensures forall u :: u in roster ==> u in customAmounts && customAmounts[u] == Empty
      ensures expenseData == ExpenseDraft("", Empty, None)
    {
      this.tripId := tripId;
      this.roster := roster;
      this.isEditMode := isEditMode;
      this.hasSettlements := hasSettlements;
      splitType := Equal;
      selectedMembers := roster;
      paidForMembers := [];
      customAmounts := map u | u in roster :: Empty;
      expenseData := ExpenseDraft("", Empty, None);
    }

    /** The edit-mode effect: the loaded description, amount and payer fill the fields. */
    method LoadExpense(loaded: ExpenseDraft)
      requires Valid()
      modifies this
      ensures Valid()
      ensures expenseData == (if isEditMode then loaded else old(expenseData))
      ensures splitType == old(splitType) && selectedMembers == old(selectedMembers)
      ensures paidForMembers == old(paidForMembers) && customAmounts == old(customAmounts)
    {
      if isEditMode {
        expenseData := loaded;
      }
    }

    /** `toggleMember(id)`: PaidFor mode edits only the paid-for list, other modes only the selection. */
    method ToggleMember(memberId: UserId)
      requires Valid()
      modifies this
      ensures Valid()
      ensures splitType == PaidFor ==>
        paidForMembers == Toggle(old(paidForMembers), memberId) && selectedMembers == old(selectedMembers)
      ensures splitType != PaidFor ==>
        selectedMembers == Toggle(old(selectedMembers), memberId) && paidForMembers == old(paidForMembers)
      ensures splitType == old(splitType) && customAmounts == old(customAmounts) && expenseData == old(expenseData)
    {
      if splitType == PaidFor {
        if memberId in paidForMembers {
          paidForMembers := RemoveAll(paidForMembers, memberId);
        } else {
          paidForMembers := paidForMembers + [memberId];
        }
      } else {
        if memberId in selectedMembers {
          selectedMembers := RemoveAll(selectedMembers, memberId);
        } else {
          selectedMembers := selectedMembers + [memberId];
        }
      }
    }

    /** `updateCustomAmount(id, value)`: only a member's own field has an input. */
    method UpdateCustomAmount(memberId: UserId, value: NumberInput)
      requires Valid() && memberId in roster
      modifies this
      ensures Valid()
      ensures customAmounts == old(customAmounts)[memberId := value]
      ensures splitType == old(splitType) && selectedMembers == old(selectedMembers)
      ensures paidForMembers == old(paidForMembers) && expenseData == old(expenseData)
    {
      customAmounts := customAmounts[memberId := value];
    }

    /** A split-method button; the buttons exist only while the panel is shown. */
    method SelectSplitType(t: SplitType)
      requires Valid()
      modifies this
      ensures Valid()
      ensures splitType == (if SplitPanelShown(isEditMode, hasSettlements) then t else old(splitType))
      ensures selectedMembers == old(selectedMembers) && paidForMembers == old(paidForMembers)
      ensures customAmounts == old(customAmounts) && expenseData == old(expenseData)
    {
      if SplitPanelShown(isEditMode, hasSettlements) {
        splitType := t;
      }
    }

    method SetDescription(text: string)
      requires Valid()
      modifies this
      ensures Valid()
      ensures expenseData == old(expenseData).(description := text)
      ensures splitType == old(splitType) && selectedMembers == old(selectedMembers)
      ensures paidForMembers == old(paidForMembers) && customAmounts == old(customAmounts)
    {
      expenseData := expenseData.(description := text);
    }

    /** The amount input; disabled, so without effect, on a locked expense. */
    method SetAmount(value: NumberInput)
      requires Valid()
      modifies this
      ensures Valid()
      ensures expenseData ==
        if AmountAndPayerEnabled(isEditMode, hasSettlements) then old(expenseData).(amount := value) else old(expenseData)
      ensures splitType == old(splitType) && selectedMembers == old(selectedMembers)
      ensures paidForMembers == old(paidForMembers) && customAmounts == old(customAmounts)
    {
      if AmountAndPayerEnabled(isEditMode, hasSettlements) {
        expenseData := expenseData.(amount := value);
      }
    }

    /** The payer select; disabled, so without effect, on a locked expense. */
    method SetPaidBy(payer: Option<UserId>)
      requires Valid()
      modifies this
      ensures Valid()
      ensures expenseData ==
        if AmountAndPayerEnabled(isEditMode, hasSettlements) then old(expenseData).(paidBy := payer) else old(expenseData)
      ensures splitType == old(splitType) && selectedMembers == old(selectedMembers)
      ensures paidForMembers == old(paidForMembers) && customAmounts == old(customAmounts)
    {
      if AmountAndPayerEnabled(isEditMode, hasSettlements) {
        expenseData := expenseData.(paidBy := payer);
      }
    }

    /** `handleSubmit`, reading the current state; the result is the request sent or the error shown. */
    method HandleSubmit() returns (r: Result<ExpenseRequest, FormError>)
      requires Valid()
      ensures r == Submit(Snapshot(), tripId)
      ensures forall order :: Distinct(order) && customAmounts.Keys == (set u | u in order) ==>
        CustomTotal(order, customAmounts) == CustomTotal(roster, customAmounts)
      ensures r.Ok? ==> r.value.tripId == tripId && r.value.splitType == splitType
      ensures r.Ok? && splitType == Custom ==>
        Abs(SumAmounts(r.value.splits.value) - r.value.amount) <= 0.01
      ensures r.Ok? && splitType == PaidFor ==>
        SumAmounts(r.value.splits.value) == r.value.amount
    {
      r := Submit(Snapshot(), tripId);
      forall order | Distinct(order) && customAmounts.Keys == (set u | u in order)
        ensures CustomTotal(order, customAmounts) == CustomTotal(roster, customAmounts)
      {
        FieldsTotalIsOrderFree(roster, order, customAmounts);
      }
      if r.Ok? {
        AcceptedRequest(Snapshot(), tripId);
      }
    }
  }
}
