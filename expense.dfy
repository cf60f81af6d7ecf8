/** Building and checking an expense (`Expense::new`, `Expense::validate`). */
module Expenses {
  import opened Types

  /** The `paid` value `Expense::new` gives a listed member: the whole amount
      for an entry whose address is the payer's, nothing otherwise. */
  function PaidBy(a: AccountId, payer: AccountId, amount: nat): nat {
    if a == payer then amount else 0
  }

  /** The `map`/`collect` over `distribution_by_members`. */
  function ExpenseMembers(dist: seq<DistributionByMemberInput>, payer: AccountId, amount: nat): (r: seq<ExpenseMember>)
    ensures |r| == |dist|
    ensures forall i :: 0 <= i < |dist| ==>
              r[i].memberAddress == dist[i].memberAddress
              && r[i].paid == PaidBy(dist[i].memberAddress, payer, amount)
              && r[i].mustPay == dist[i].value
  {
    if dist == [] then []
    else
      [ExpenseMember(dist[0].memberAddress, PaidBy(dist[0].memberAddress, payer, amount), dist[0].value)]
      + ExpenseMembers(dist[1..], payer, amount)
  }

  /** `Expense::new(id, input)`. */
  function NewExpense(id: nat, input: ExpenseInput): (e: Expense)
    ensures e.id == id && e.groupId == input.groupId && e.amount == input.amount
    ensures e.distributionType == input.distribution.distributionType
    ensures |e.members| == |input.distribution.distributionByMembers|
    ensures forall i :: 0 <= i < |e.members| ==>
              var d := input.distribution.distributionByMembers[i];
              e.members[i].memberAddress == d.memberAddress
              && e.members[i].paid == (if d.memberAddress == input.payerAddress then input.amount else 0)
              && e.members[i].mustPay == d.value
  {
    Expense(
      id,
      input.groupId,
      input.amount,
      input.distribution.distributionType,
      ExpenseMembers(input.distribution.distributionByMembers, input.payerAddress, input.amount))
  }

  /** `Expense::validate`: a zero amount is refused before an empty member list;
      nothing else is checked. */
  function Validate(e: Expense): (r: Result<()>)
    ensures r == Err(ExpenseAmountIsZero) <==> e.amount == 0
    ensures r == Err(ExpenseWithoutDistributionMembers) <==> e.amount != 0 && e.members == []
    ensures r == Ok(()) <==> e.amount != 0 && e.members != []
  {
    if e.amount == 0 then Err(ExpenseAmountIsZero)
    else if |e.members| == 0 then Err(ExpenseWithoutDistributionMembers)
    else Ok(())
  }

  function SumPaid(ms: seq<ExpenseMember>): int {
    if ms == [] then 0 else ms[0].paid + SumPaid(ms[1..])
  }

  function SumMustPay(ms: seq<ExpenseMember>): int {
    if ms == [] then 0 else ms[0].mustPay + SumMustPay(ms[1..])
  }

  function SumValues(dist: seq<DistributionByMemberInput>): nat {
    if dist == [] then 0 else dist[0].value + SumValues(dist[1..])
  }

  /** How many entries of the distribution name `a`. */
  function CountAddress(dist: seq<DistributionByMemberInput>, a: AccountId): nat {
    if dist == [] then 0 else (if dist[0].memberAddress == a then 1 else 0) + CountAddress(dist[1..], a)
  }

  lemma {:induction false} ExpenseMembersPaid(dist: seq<DistributionByMemberInput>, payer: AccountId, amount: nat)
    ensures SumPaid(ExpenseMembers(dist, payer, amount)) == amount * CountAddress(dist, payer)
    ensures SumMustPay(ExpenseMembers(dist, payer, amount)) == SumValues(dist)
  {
    if dist != [] {
      var r := ExpenseMembers(dist, payer, amount);
      assert r[1..] == ExpenseMembers(dist[1..], payer, amount);
      ExpenseMembersPaid(dist[1..], payer, amount);
      var c := CountAddress(dist[1..], payer);
      if dist[0].memberAddress == payer {
        assert amount * (1 + c) == amount + amount * c;
      }
    }
  }

  /** The payer is credited once per entry that names it: listed once, the
      recorded payments sum to the amount; listed twice, to twice the amount;
      not listed, to nothing. The obligations sum to the input values. */
  lemma PaidTotal(id: nat, input: ExpenseInput)
    ensures SumPaid(NewExpense(id, input).members)
            == input.amount * CountAddress(input.distribution.distributionByMembers, input.payerAddress)
    ensures SumMustPay(NewExpense(id, input).members) == SumValues(input.distribution.distributionByMembers)
  {
    ExpenseMembersPaid(input.distribution.distributionByMembers, input.payerAddress, input.amount);
  }

  /** `validate` accepts an expense whose payments and obligations do not add
      up to its amount. */
  lemma ValidateIgnoresSums()
    ensures exists e :: Validate(e) == Ok(()) && SumPaid(e.members) != e.amount && SumMustPay(e.members) != e.amount
  {
    var e := Expense(1, 1, 10, Unequally, [ExpenseMember(7, 3, 4)]);
    assert SumPaid(e.members) == 3;
    assert SumMustPay(e.members) == 4;
  }
}
