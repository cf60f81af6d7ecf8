/** Data shapes of the Splitmate ledger: group members and groups, expenses,
    the inputs and outputs of the contract messages, its errors, and the
    integer widths the contract computes with. */
module Types {

  /** An account is an opaque identity; only equality matters. */
  type AccountId = nat

  const U32_MAX: int := 0xFFFF_FFFF
  const U128_MAX: int := 0xFFFF_FFFF_FFFF_FFFF_FFFF_FFFF_FFFF_FFFF
  const I128_MAX: int := 0x7FFF_FFFF_FFFF_FFFF_FFFF_FFFF_FFFF_FFFF
  const I128_MIN: int := -I128_MAX - 1

  /** The value fits an `i128`. */
  predicate InI128(x: int) {
    I128_MIN <= x <= I128_MAX
  }

  /** An unsigned amount whose cast to `i128` does not wrap. */
  predicate FitsI128(x: nat) {
    x <= I128_MAX
  }

  datatype Option<T> = None | Some(value: T)

  datatype ContractError =
    | MemberIsNotInTheGroup
    | ExpenseDistributionMemberIsNotInTheGroup
    | ExpenseAmountIsZero
    | ExpenseWithoutPayers
    | ExpenseWithoutMembers
    | ExpenseWithoutDistributionMembers
    | GroupDoesNotExist
    | TransferError

  /** What a routine of the contract ends with: a value, a returned error, or a
      panic (an `unwrap` of nothing, a checked operation that overflowed, an
      index out of range). A panic traps the ink! message and reverts every
      storage write of that call. */
  datatype Result<T> = Ok(value: T) | Err(error: ContractError) | Panic

  /** The same outcome with the value dropped (`?` on a `BaseResult`). */
  function Discard<T>(r: Result<T>): (d: Result<()>)
    ensures d.Ok? <==> r.Ok?
    ensures d.Err? <==> r.Err?
    ensures d.Err? ==> d.error == r.error
  {
    match r
    case Ok(_) => Ok(())
    case Err(e) => Err(e)
    case Panic => Panic
  }

  /** A member's place in a group: `debt_value > 0` is owed money (a giver in
      the settlement plan), `debt_value < 0` owes money (a taker). */
  datatype GroupMember = GroupMember(memberAddress: AccountId, debtValue: int)

  datatype Group = Group(id: nat, members: seq<GroupMember>, nextExpenseId: nat)

  datatype DistributionType = Equally | Unequally

  datatype ExpenseMember = ExpenseMember(memberAddress: AccountId, paid: nat, mustPay: nat)

  datatype Expense = Expense(
    id: nat,
    groupId: nat,
    amount: nat,
    distributionType: DistributionType,
    members: seq<ExpenseMember>)

  datatype DistributionByMemberInput = DistributionByMemberInput(memberAddress: AccountId, value: nat)

  datatype DistributionInput = DistributionInput(
    distributionType: DistributionType,
    distributionByMembers: seq<DistributionByMemberInput>)

  datatype ExpenseInput = ExpenseInput(
    groupId: nat,
    amount: nat,
    payerAddress: AccountId,
    distribution: DistributionInput)

  /** One group's part of a `settle_up` request: the transfers the caller makes. */
  datatype GroupDebtsToPay = GroupDebtsToPay(groupId: nat, takers: seq<DistributionByMemberInput>)

  datatype GroupMemberDistributionTransfer = GroupMemberDistributionTransfer(memberAccount: AccountId, value: nat)

  datatype GroupMemberDistribution = GroupMemberDistribution(
    memberAccount: AccountId,
    totalDebt: int,
    transfers: seq<GroupMemberDistributionTransfer>)

  datatype GroupSettledDebts = GroupSettledDebts(groupId: nat, takers: seq<AccountId>)

  datatype SettleUpResult = SettleUpResult(result: bool, totalSettledDebts: Option<seq<GroupSettledDebts>>)
}
