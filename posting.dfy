/** What posting an expense does to a group's balances: addresses are kept,
    each listed member moves by `obligation - paid`, an unknown address is the
    only returned error, and an equal split loses its rounding remainder. */
module PostingFacts {
  import opened Types
  import opened Vectors
  import opened Expenses
  import opened Utils

  /** The signed change one expense entry makes: obligation minus payment. */
  function Delta(e: Expense, em: ExpenseMember): int
    requires ShareDefined(e)
  {
    AmountToPay(e, em).value - em.paid
  }

  /** The sum of the changes of all entries. */
  function SumDelta(ems: seq<ExpenseMember>, e: Expense): int
    requires ShareDefined(e)
  {
    if ems == [] then 0 else Delta(e, ems[0]) + SumDelta(ems[1..], e)
  }

  /** The sum of the changes of the entries that name `a`. */
  function DeltaFor(ems: seq<ExpenseMember>, e: Expense, a: AccountId): int
    requires ShareDefined(e)
  {
    if ems == [] then 0
    else (if ems[0].memberAddress == a then Delta(e, ems[0]) else 0) + DeltaFor(ems[1..], e, a)
  }

  /** The sum of the obligations alone. */
  function SumObligation(ems: seq<ExpenseMember>, e: Expense): int
    requires ShareDefined(e)
  {
    if ems == [] then 0 else AmountToPay(e, ems[0]).value + SumObligation(ems[1..], e)
  }

  /** One posted entry: the group keeps its addresses, the named member is
      moved to the end with the others in their order, and only its balance
      moves, by that entry's change. */
  lemma PostStepEffect(members: seq<GroupMember>, em: ExpenseMember, e: Expense)
    requires PostStep(members, em, e).Ok?
    ensures ShareDefined(e)
    ensures var r := PostStep(members, em, e).value;
            && |r| == |members|
            && r[|r| - 1].memberAddress == em.memberAddress
            && r[..|r| - 1] == RemoveAt(members, FirstIndex(members, HasAddress(em.memberAddress)).value)
            && multiset(Addresses(r)) == multiset(Addresses(members))
            && Total(r) == Total(members) + Delta(e, em)
            && forall a :: DebtOf(r, a) == DebtOf(members, a) + (if a == em.memberAddress then Delta(e, em) else 0)
  {
    var i := FirstIndex(members, HasAddress(em.memberAddress)).value;
    assert HasAddress(em.memberAddress)(members[i]);
    var updated := members[i].debtValue + Delta(e, em);
    assert PostStep(members, em, e).value == MoveToEnd(members, i, updated);
    MoveToEndEffect(members, i, updated);
    MoveToEndShape(members, i, updated);
  }

  /** One posted entry keeps the group's addresses. */
  lemma PostStepAddresses(members: seq<GroupMember>, em: ExpenseMember, e: Expense)
    requires PostStep(members, em, e).Ok?
    ensures multiset(Addresses(PostStep(members, em, e).value)) == multiset(Addresses(members))
  {
    var i := FirstIndex(members, HasAddress(em.memberAddress)).value;
    assert HasAddress(em.memberAddress)(members[i]);
    AddressesRemoveAt(members, i, PostStep(members, em, e).value[|members| - 1]);
  }

  /** One entry fails with a returned error exactly when its address is not in
      the group, and that error is `ExpenseDistributionMemberIsNotInTheGroup`. */
  lemma PostStepError(members: seq<GroupMember>, em: ExpenseMember, e: Expense)
    ensures PostStep(members, em, e).Err? <==> em.memberAddress !in Addresses(members)
    ensures PostStep(members, em, e).Err? ==> PostStep(members, em, e).error == ExpenseDistributionMemberIsNotInTheGroup
  {
    FirstIndexSpec(members, HasAddress(em.memberAddress));
    match FirstIndex(members, HasAddress(em.memberAddress))
    case None =>
    case Some(i) =>
      assert HasAddress(em.memberAddress)(members[i]);
      assert Addresses(members)[i] == em.memberAddress;
  }

  /** `process_expense_debts` keeps the group's addresses (as a multiset), adds
      to every address the changes of the entries naming it, and so moves the
      group's total by the sum of all changes. */
  lemma {:induction false} PostExpenseEffect(members: seq<GroupMember>, ems: seq<ExpenseMember>, e: Expense)
    requires ShareDefined(e)
    requires PostExpense(members, ems, e).Ok?
    ensures var r := PostExpense(members, ems, e).value;
            && multiset(Addresses(r)) == multiset(Addresses(members))
            && Total(r) == Total(members) + SumDelta(ems, e)
            && forall a :: DebtOf(r, a) == DebtOf(members, a) + DeltaFor(ems, e, a)
    decreases |ems|
  {
    if ems != [] {
      var next := PostStep(members, ems[0], e).value;
      PostStepEffect(members, ems[0], e);
      PostExpenseEffect(next, ems[1..], e);
    }
  }

  /** The only error posting returns is an entry whose address is not in the
      group; with every address present it returns none. */
  lemma {:induction false} PostExpenseError(members: seq<GroupMember>, ems: seq<ExpenseMember>, e: Expense)
    ensures PostExpense(members, ems, e).Err? ==>
              PostExpense(members, ems, e).error == ExpenseDistributionMemberIsNotInTheGroup
              && exists k :: 0 <= k < |ems| && ems[k].memberAddress !in Addresses(members)
    ensures (forall k :: 0 <= k < |ems| ==> ems[k].memberAddress in Addresses(members)) ==>
              !PostExpense(members, ems, e).Err?
    decreases |ems|
  {
    if ems != [] {
      PostStepError(members, ems[0], e);
      var step := PostStep(members, ems[0], e);
      if step.Ok? {
        PostStepAddresses(members, ems[0], e);
        var next := step.value;
        PostExpenseError(next, ems[1..], e);
        assert forall a :: a in Addresses(next) <==> a in Addresses(members) by {
          assert forall a :: a in Addresses(next) <==> a in multiset(Addresses(next));
          assert forall a :: a in Addresses(members) <==> a in multiset(Addresses(members));
        }
        if PostExpense(members, ems, e).Err? {
          var k :| 0 <= k < |ems[1..]| && ems[1..][k].memberAddress !in Addresses(next);
          assert ems[k + 1].memberAddress !in Addresses(members);
        }
        if forall k :: 0 <= k < |ems| ==> ems[k].memberAddress in Addresses(members) {
          assert forall k :: 0 <= k < |ems[1..]| ==> ems[1..][k].memberAddress in Addresses(next) by {
            forall k | 0 <= k < |ems[1..]| ensures ems[1..][k].memberAddress in Addresses(next) {
              assert ems[1..][k] == ems[k + 1];
            }
          }
        }
      } else if step.Err? {
        assert ems[0].memberAddress !in Addresses(members);
      }
    }
  }

  lemma {:induction false} SumDeltaSplit(ems: seq<ExpenseMember>, e: Expense)
    requires ShareDefined(e)
    ensures SumDelta(ems, e) == SumObligation(ems, e) - SumPaid(ems)
    decreases |ems|
  {
    if ems != [] {
      SumDeltaSplit(ems[1..], e);
    }
  }

  lemma {:induction false} EqualObligations(ems: seq<ExpenseMember>, e: Expense)
    requires e.distributionType == Equally && |e.members| > 0
    ensures SumObligation(ems, e) == |ems| * (e.amount / |e.members|)
    decreases |ems|
  {
    if ems != [] {
      EqualObligations(ems[1..], e);
      var q := e.amount / |e.members|;
      assert |ems| * q == q + (|ems| - 1) * q;
    }
  }

  lemma {:induction false} WeightedObligations(ems: seq<ExpenseMember>, e: Expense)
    requires e.distributionType == Unequally
    ensures SumObligation(ems, e) == SumMustPay(ems)
    decreases |ems|
  {
    if ems != [] {
      WeightedObligations(ems[1..], e);
    }
  }

  lemma FloorGap(a: nat, n: nat)
    requires n > 0
    ensures n * (a / n) - a == -(a % n)
  {
    assert a == (a / n) * n + a % n;
  }

  /** Posting an equal split whose recorded payments add up to its amount
      moves the group's total by the rounding remainder. */
  lemma EqualSplitTotal(members: seq<GroupMember>, e: Expense)
    requires e.distributionType == Equally && |e.members| > 0
    requires SumPaid(e.members) == e.amount
    requires PostExpense(members, e.members, e).Ok?
    ensures Total(PostExpense(members, e.members, e).value) == Total(members) - e.amount % |e.members|
  {
    PostExpenseEffect(members, e.members, e);
    SumDeltaSplit(e.members, e);
    EqualObligations(e.members, e);
    FloorGap(e.amount, |e.members|);
  }

  /** An equal split whose payer is listed once among `n` entries charges
      everyone the floor share, so the group's total drops by `amount mod n`:
      the balances stay zero-sum only when `n` divides the amount. */
  lemma EqualSplitRoundingGap(members: seq<GroupMember>, id: nat, input: ExpenseInput)
    requires input.distribution.distributionType == Equally
    requires CountAddress(input.distribution.distributionByMembers, input.payerAddress) == 1
    requires PostExpense(members, NewExpense(id, input).members, NewExpense(id, input)).Ok?
    ensures var n := |input.distribution.distributionByMembers|;
            var r := PostExpense(members, NewExpense(id, input).members, NewExpense(id, input)).value;
            && n > 0
            && Total(r) == Total(members) - input.amount % n
            && (Total(r) == Total(members) <==> input.amount % n == 0)
  {
    var e := NewExpense(id, input);
    assert input.distribution.distributionByMembers != [];
    PaidTotal(id, input);
    EqualSplitTotal(members, e);
  }

  /** An unequal split whose payer is listed once moves the group's total by
      the obligations minus the amount: it stays zero-sum exactly when the
      `must_pay` values add up to the amount. */
  lemma WeightedSplitBalance(members: seq<GroupMember>, id: nat, input: ExpenseInput)
    requires input.distribution.distributionType == Unequally
    requires CountAddress(input.distribution.distributionByMembers, input.payerAddress) == 1
    requires PostExpense(members, NewExpense(id, input).members, NewExpense(id, input)).Ok?
    ensures var r := PostExpense(members, NewExpense(id, input).members, NewExpense(id, input)).value;
            Total(r) == Total(members) + SumValues(input.distribution.distributionByMembers) - input.amount
  {
    var e := NewExpense(id, input);
    PostExpenseEffect(members, e.members, e);
    SumDeltaSplit(e.members, e);
    WeightedObligations(e.members, e);
    PaidTotal(id, input);
  }
}
