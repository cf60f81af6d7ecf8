/** The contract's storage and messages: `new`, `add_group`, `add_expense`,
    `get_group_distribution` and `settle_up`. The storage mappings are Dafny
    maps, and the caller of a message is an explicit parameter. The older
    contract has the same `new` and `add_group`, except that its group ids
    start at 0. */
module Contract {
  import opened Types
  import opened Expenses
  import opened Utils
  import opened PostingFacts
  import opened Distribution
  import opened Settlement

  /** `member_groups.get(a).unwrap_or(Vec::new())`: the ids of the groups `a`
      was added to. */
  function GroupsOf(memberGroups: map<AccountId, seq<nat>>, a: AccountId): seq<nat> {
    if a in memberGroups then memberGroups[a] else []
  }

  /** `n` copies of a group id: what `add_group` appends to the list of an
      account listed `n` times. */
  function Repeat(id: nat, n: nat): (r: seq<nat>)
    ensures |r| == n
    ensures forall x :: x in r ==> x == id
    ensures n > 0 ==> id in r
  {
    if n == 0 then [] else Repeat(id, n - 1) + [id]
  }

  /** The membership index agrees with the groups: an account lists a group
      exactly when it is one of that group's members. */
  ghost predicate IndexConsistent(groups: map<nat, Group>, memberGroups: map<AccountId, seq<nat>>) {
    && (forall a, g :: a in memberGroups && g in memberGroups[a] ==> g in groups && a in Addresses(groups[g].members))
    && (forall g, a :: g in groups && a in Addresses(groups[g].members) ==> a in memberGroups && g in memberGroups[a])
  }

  /** An account whose index entry lists a group is one of its members. */
  lemma IndexForward(groups: map<nat, Group>, memberGroups: map<AccountId, seq<nat>>, a: AccountId, g: nat)
    requires IndexConsistent(groups, memberGroups)
    requires a in memberGroups && g in memberGroups[a]
    ensures g in groups && a in Addresses(groups[g].members)
  {
  }

  /** A member of a group lists it in its index entry. */
  lemma IndexBackward(groups: map<nat, Group>, memberGroups: map<AccountId, seq<nat>>, g: nat, a: AccountId)
    requires IndexConsistent(groups, memberGroups)
    requires g in groups && a in Addresses(groups[g].members)
    ensures g in GroupsOf(memberGroups, a)
  {
  }

  /** A group's expense log holds the expenses numbered `1` to `next - 1`, in
      that order, all filed under that group. */
  ghost predicate LogNumbered(log: seq<Expense>, groupId: nat, next: nat) {
    && |log| == next - 1
    && forall i :: 0 <= i < |log| ==> log[i].id == i + 1 && log[i].groupId == groupId
  }

  /** An account that passes the membership gate is a member of the group it
      gets back. */
  lemma CheckedCallerIsMember(groups: map<nat, Group>, memberGroups: map<AccountId, seq<nat>>, caller: AccountId, groupId: nat)
    requires IndexConsistent(groups, memberGroups)
    ensures CheckGroupMembership(groups, memberGroups, caller, groupId).Ok? ==>
              caller in Addresses(CheckGroupMembership(groups, memberGroups, caller, groupId).value.members)
  {
  }

  /** The index after registering group `id` with `members`: every account
      gets the id appended once per listing, and the accounts listed become
      keys. */
  ghost predicate Registered(memberGroups: map<AccountId, seq<nat>>, memberGroups': map<AccountId, seq<nat>>,
                             id: nat, members: seq<GroupMember>) {
    && (forall a :: GroupsOf(memberGroups', a) == GroupsOf(memberGroups, a) + Repeat(id, multiset(Addresses(members))[a]))
    && (forall a :: a in memberGroups' <==> a in memberGroups || a in Addresses(members))
  }

  lemma RegisterForward(groups: map<nat, Group>, memberGroups: map<AccountId, seq<nat>>,
                        memberGroups': map<AccountId, seq<nat>>, id: nat, members: seq<GroupMember>, a: AccountId, g: nat)
    requires IndexConsistent(groups, memberGroups) && id !in groups
    requires Registered(memberGroups, memberGroups', id, members)
    requires a in memberGroups' && g in memberGroups'[a]
    ensures g in groups[id := Group(id, members, 1)]
    ensures a in Addresses(groups[id := Group(id, members, 1)][g].members)
  {
    var c := multiset(Addresses(members))[a];
    assert GroupsOf(memberGroups', a) == memberGroups'[a];
    assert g in GroupsOf(memberGroups, a) + Repeat(id, c);
    if g in GroupsOf(memberGroups, a) {
      IndexForward(groups, memberGroups, a, g);
    } else {
      assert g in Repeat(id, c);
      assert a in multiset(Addresses(members));
    }
  }

  lemma RegisterBackward(groups: map<nat, Group>, memberGroups: map<AccountId, seq<nat>>,
                         memberGroups': map<AccountId, seq<nat>>, id: nat, members: seq<GroupMember>, g: nat, a: AccountId)
    requires IndexConsistent(groups, memberGroups) && id !in groups
    requires Registered(memberGroups, memberGroups', id, members)
    requires g in groups[id := Group(id, members, 1)]
    requires a in Addresses(groups[id := Group(id, members, 1)][g].members)
    ensures a in memberGroups' && g in memberGroups'[a]
  {
    var c := multiset(Addresses(members))[a];
    if g == id {
      assert a in multiset(Addresses(members));
      assert id in Repeat(id, c);
    } else {
      IndexBackward(groups, memberGroups, g, a);
    }
    assert g in GroupsOf(memberGroups, a) + Repeat(id, c);
    assert g in GroupsOf(memberGroups', a);
  }

  /** The index after the loop of `add_group` has appended `id` to the list
      of each of `accounts`, in order. */
  function Register(memberGroups: map<AccountId, seq<nat>>, accounts: seq<AccountId>, id: nat): map<AccountId, seq<nat>>
    decreases |accounts|
  {
    if accounts == [] then memberGroups
    else
      var before := Register(memberGroups, accounts[..|accounts| - 1], id);
      var a := accounts[|accounts| - 1];
      before[a := GroupsOf(before, a) + [id]]
  }

  /** Each account's list gains the id once per listing, at the end, and the
      listed accounts become keys; no other list changes. */
  lemma {:induction false} RegisterSpec(memberGroups: map<AccountId, seq<nat>>, accounts: seq<AccountId>, id: nat)
    ensures forall a :: GroupsOf(Register(memberGroups, accounts, id), a)
                        == GroupsOf(memberGroups, a) + Repeat(id, multiset(accounts)[a])
    ensures forall a :: a in Register(memberGroups, accounts, id) <==> a in memberGroups || a in accounts
    decreases |accounts|
  {
    if accounts == [] {
      forall a ensures GroupsOf(memberGroups, a) + Repeat(id, 0) == GroupsOf(memberGroups, a) {
        assert GroupsOf(memberGroups, a) + [] == GroupsOf(memberGroups, a);
      }
    } else {
      var prefix := accounts[..|accounts| - 1];
      var last := accounts[|accounts| - 1];
      assert accounts == prefix + [last];
      RegisterSpec(memberGroups, prefix, id);
      forall a ensures GroupsOf(Register(memberGroups, accounts, id), a)
                       == GroupsOf(memberGroups, a) + Repeat(id, multiset(accounts)[a]) {
        if a == last {
          assert multiset(accounts)[a] == multiset(prefix)[a] + 1;
          assert GroupsOf(memberGroups, a) + Repeat(id, multiset(prefix)[a]) + [id]
                 == GroupsOf(memberGroups, a) + Repeat(id, multiset(accounts)[a]);
        } else {
          assert multiset(accounts)[a] == multiset(prefix)[a];
        }
      }
    }
  }

  /** Registering a new group keeps the index consistent. */
  lemma RegisterKeepsIndex(groups: map<nat, Group>, memberGroups: map<AccountId, seq<nat>>,
                           memberGroups': map<AccountId, seq<nat>>, id: nat, members: seq<GroupMember>)
    requires IndexConsistent(groups, memberGroups) && id !in groups
    requires Registered(memberGroups, memberGroups', id, members)
    ensures IndexConsistent(groups[id := Group(id, members, 1)], memberGroups')
  {
    forall a, g | a in memberGroups' && g in memberGroups'[a]
      ensures g in groups[id := Group(id, members, 1)] && a in Addresses(groups[id := Group(id, members, 1)][g].members)
    {
      RegisterForward(groups, memberGroups, memberGroups', id, members, a, g);
    }
    forall g, a | g in groups[id := Group(id, members, 1)] && a in Addresses(groups[id := Group(id, members, 1)][g].members)
      ensures a in memberGroups' && g in memberGroups'[a]
    {
      RegisterBackward(groups, memberGroups, memberGroups', id, members, g, a);
    }
  }

  /** Storing a group back under its id with the same member addresses keeps
      the index consistent. */
  lemma ReplaceKeepsIndex(groups: map<nat, Group>, memberGroups: map<AccountId, seq<nat>>, id: nat, group: Group)
    requires IndexConsistent(groups, memberGroups)
    requires id in groups
    requires multiset(Addresses(group.members)) == multiset(Addresses(groups[id].members))
    ensures IndexConsistent(groups[id := group], memberGroups)
  {
    forall a | true
      ensures a in Addresses(group.members) <==> a in Addresses(groups[id].members)
    {
      assert a in Addresses(group.members) <==> a in multiset(Addresses(group.members));
      assert a in Addresses(groups[id].members) <==> a in multiset(Addresses(groups[id].members));
    }
  }

  /** The unsigned amounts of an expense request fit `i128`, so the casts of
      the posting loop are exact. */
  predicate InputFitsI128(input: ExpenseInput) {
    && FitsI128(input.amount)
    && forall k :: 0 <= k < |input.distribution.distributionByMembers| ==>
         FitsI128(input.distribution.distributionByMembers[k].value)
  }

  /** What `add_expense` makes of the group the membership gate returned: the
      expense built with the group's next expense id, validated, posted, and
      the `u32` expense counter advanced with `checked_add`. */
  function PostedGroup(group: Group, input: ExpenseInput): (r: Result<(Group, Expense)>)
    ensures r.Ok? ==>
              && r.value.1 == NewExpense(group.nextExpenseId, input)
              && r.value.0.id == group.id
              && r.value.0.nextExpenseId == group.nextExpenseId + 1 <= U32_MAX
              && ShareDefined(r.value.1)
              && multiset(Addresses(r.value.0.members)) == multiset(Addresses(group.members))
              && forall a :: DebtOf(r.value.0.members, a) == DebtOf(group.members, a) + DeltaFor(r.value.1.members, r.value.1, a)
    ensures r == Err(ExpenseAmountIsZero) <==> input.amount == 0
    ensures input.amount != 0 && input.distribution.distributionByMembers == [] ==>
              r == Err(ExpenseWithoutDistributionMembers)
    ensures input.amount != 0 && input.distribution.distributionByMembers != [] && r.Err? ==>
              && r.error == ExpenseDistributionMemberIsNotInTheGroup
              && exists k :: 0 <= k < |input.distribution.distributionByMembers|
                             && input.distribution.distributionByMembers[k].memberAddress !in Addresses(group.members)
    ensures (forall k :: 0 <= k < |input.distribution.distributionByMembers| ==>
               input.distribution.distributionByMembers[k].memberAddress in Addresses(group.members)) ==>
              input.amount == 0 || input.distribution.distributionByMembers == [] || !r.Err?
  {
    var e := NewExpense(group.nextExpenseId, input);
    match Validate(e)
    case Err(err) => Err(err)
    case Panic => Panic
    case Ok(_) =>
      PostExpenseError(group.members, e.members, e);
      match PostExpense(group.members, e.members, e)
      case Err(err) => Err(err)
      case Panic => Panic
      case Ok(members) =>
        PostExpenseEffect(group.members, e.members, e);
        if group.nextExpenseId >= U32_MAX then Panic
        else Ok((group.(members := members, nextExpenseId := group.nextExpenseId + 1), e))
  }

  /** The body of `add_expense` between the membership gate and the writes:
      the expense built with the group's next expense id, validated, posted
      to the group, and the expense counter advanced. A trap of the final
      `checked_add` reverts the log write made just before it, so the counter
      is checked before anything is handed back to be written. */
  method PostToGroup(group: Group, expenseToAdd: ExpenseInput) returns (r: Result<(Group, Expense)>)
    requires InputFitsI128(expenseToAdd)
    ensures r == PostedGroup(group, expenseToAdd)
  {
    var expense := NewExpense(group.nextExpenseId, expenseToAdd);
    var validated := Validate(expense);
    if validated.Err? {
      return Err(validated.error);
    }
    assert ExpenseFitsI128(expense);
    var posted := ProcessExpenseDebts(group, expense);
    if posted.Err? {
      return Err(posted.error);
    }
    if posted.Panic? {
      return Panic;
    }
    if group.nextExpenseId >= U32_MAX {
      return Panic;
    }
    return Ok((posted.value.(nextExpenseId := group.nextExpenseId + 1), expense));
  }

  /** The takers' loop of `settle_up` on a local copy of one group, from
      transfer ordinal `transfer`: each successful transfer credits its taker
      and adds to the running total; the first failed transfer ends it. */
  method CreditTakers(group: Group, takers: seq<DistributionByMemberInput>, transferOk: nat -> bool, transfer: nat)
    returns (r: Result<GroupRun>)
    requires SumValues(takers) <= I128_MAX
    ensures r == Credit(group, takers, transferOk, transfer, [], 0)
    ensures r.Ok? ==> r.value.paid <= SumValues(takers)
  {
    var local := group;
    var groupSettledDebtAmount: nat := 0;
    var settled: seq<AccountId> := [];
    var pending := takers;
    var k := transfer;
    ghost var outcome := Credit(group, takers, transferOk, transfer, [], 0);
    while pending != []
      invariant groupSettledDebtAmount + SumValues(pending) == SumValues(takers)
      invariant outcome == Credit(local, pending, transferOk, k, settled, groupSettledDebtAmount)
      decreases |pending|
    {
      var taker := pending[0];
      if !transferOk(k) {
        return Ok(GroupRun(local, settled, groupSettledDebtAmount, true));
      }
      var credited := CreditTaker(outcome, local, pending, transferOk, k, settled, groupSettledDebtAmount);
      if !credited.Ok? {
        return Panic;
      }
      local := credited.value;
      groupSettledDebtAmount := groupSettledDebtAmount + taker.value;
      settled := settled + [taker.memberAddress];
      pending := pending[1..];
      k := k + 1;
    }
    return Ok(GroupRun(local, settled, groupSettledDebtAmount, false));
  }

  /** The body of `settle_up` for one group, from transfer ordinal
      `transfer`: the takers' loop, then the caller debited by the running
      total, both when the loop runs out of takers and when a transfer fails
      (after which `settle_up` returns). */
  method SettleGroupDebts(group: Group, caller: AccountId, takers: seq<DistributionByMemberInput>,
                          transferOk: nat -> bool, transfer: nat)
    returns (r: Result<GroupRun>)
    requires SumValues(takers) <= I128_MAX
    ensures r == SettleGroup(group, caller, takers, transferOk, transfer)
  {
    var run := CreditTakers(group, takers, transferOk, transfer);
    if run.Err? {
      return Err(run.error);
    }
    if run.Panic? {
      return Panic;
    }
    var debited := UpdateGroupDebt(run.value.group, caller, false, run.value.paid);
    if !debited.Ok? {
      return Panic;
    }
    return Ok(run.value.(group := debited.value));
  }

  /** One successful transfer of the takers' loop: the first pending taker
      credited in the local group, and the loop going on from the next one. */
  method CreditTaker(ghost outcome: Result<GroupRun>, local: Group, pending: seq<DistributionByMemberInput>,
                     transferOk: nat -> bool, k: nat, settled: seq<AccountId>, paid: nat)
    returns (credited: Result<Group>)
    requires outcome == Credit(local, pending, transferOk, k, settled, paid)
    requires pending != [] && transferOk(k)
    requires paid + pending[0].value <= I128_MAX
    ensures !credited.Ok? ==> outcome == Panic
    ensures credited.Ok? ==> outcome == Credit(credited.value, pending[1..], transferOk, k + 1,
                                               settled + [pending[0].memberAddress], paid + pending[0].value)
  {
    credited := UpdateGroupDebt(local, pending[0].memberAddress, true, pending[0].value);
    if credited.Ok? {
      CreditStep(local, pending, transferOk, k, settled, paid, credited.value.members);
    }
  }

  /** A request that reaches the `settle_up` debit with every running total
      representable as an `i128`. */
  predicate SumsFitI128(debts: seq<GroupDebtsToPay>) {
    forall i :: 0 <= i < |debts| ==> SumValues(debts[i].takers) <= I128_MAX
  }

  /** `group_expenses.get(id).unwrap_or(Vec::new())`. */
  function LogOf(groupExpenses: map<nat, seq<Expense>>, groupId: nat): seq<Expense> {
    if groupId in groupExpenses then groupExpenses[groupId] else []
  }

  /** What every message keeps of the storage: the group counter fits a `u128`
      and is above every stored id; each group is stored under its own id with
      a `u32` expense counter and a log numbered up to it; logs belong to
      stored groups; the membership index agrees with the groups. */
  ghost predicate Stored(groups: map<nat, Group>, groupExpenses: map<nat, seq<Expense>>,
                         memberGroups: map<AccountId, seq<nat>>, nextGroupId: nat) {
    && nextGroupId <= U128_MAX
    && (forall g :: g in groups ==> g < nextGroupId && groups[g].id == g && 1 <= groups[g].nextExpenseId <= U32_MAX)
    && (forall g :: g in groupExpenses ==> g in groups)
    && (forall g :: g in groups ==> LogNumbered(LogOf(groupExpenses, g), g, groups[g].nextExpenseId))
    && IndexConsistent(groups, memberGroups)
  }

  /** `add_group` keeps the storage invariant: the new id is above every
      stored one and has no log yet. */
  lemma AddGroupKeepsStored(groups: map<nat, Group>, groupExpenses: map<nat, seq<Expense>>,
                            memberGroups: map<AccountId, seq<nat>>, nextGroupId: nat, members: seq<GroupMember>)
    requires Stored(groups, groupExpenses, memberGroups, nextGroupId)
    requires nextGroupId < U128_MAX
    ensures nextGroupId !in groups
    ensures Stored(groups[nextGroupId := Group(nextGroupId, members, 1)], groupExpenses,
                   Register(memberGroups, Addresses(members), nextGroupId), nextGroupId + 1)
  {
    var groups' := groups[nextGroupId := Group(nextGroupId, members, 1)];
    var memberGroups' := Register(memberGroups, Addresses(members), nextGroupId);
    RegisterSpec(memberGroups, Addresses(members), nextGroupId);
    RegisterKeepsIndex(groups, memberGroups, memberGroups', nextGroupId, members);
    assert forall g :: g in groups' ==> g < nextGroupId + 1 && groups'[g].id == g && 1 <= groups'[g].nextExpenseId <= U32_MAX;
    assert forall g :: g in groups' ==> LogNumbered(LogOf(groupExpenses, g), g, groups'[g].nextExpenseId) by {
      assert LogOf(groupExpenses, nextGroupId) == [];
    }
  }

  /** `add_expense` keeps the storage invariant: the group is stored back
      under its id with the same addresses and the next expense id, and the
      expense it logs carries the old one. */
  lemma AddExpenseKeepsStored(groups: map<nat, Group>, groupExpenses: map<nat, seq<Expense>>,
                              memberGroups: map<AccountId, seq<nat>>, nextGroupId: nat,
                              groupId: nat, group: Group, expense: Expense)
    requires Stored(groups, groupExpenses, memberGroups, nextGroupId)
    requires groupId in groups
    requires group.id == groupId && group.nextExpenseId == groups[groupId].nextExpenseId + 1 <= U32_MAX
    requires multiset(Addresses(group.members)) == multiset(Addresses(groups[groupId].members))
    requires expense.id == groups[groupId].nextExpenseId && expense.groupId == groupId
    ensures Stored(groups[groupId := group], groupExpenses[groupId := LogOf(groupExpenses, groupId) + [expense]],
                   memberGroups, nextGroupId)
  {
    ReplaceKeepsIndex(groups, memberGroups, groupId, group);
    var log := LogOf(groupExpenses, groupId) + [expense];
    assert LogOf(groupExpenses[groupId := log], groupId) == log;
  }

  /** The contract storage. */
  class Splitmate {
    var tokenAddress: AccountId
    var groups: map<nat, Group>
    var groupExpenses: map<nat, seq<Expense>>
    var memberGroups: map<AccountId, seq<nat>>
    var nextGroupId: nat

    /** The storage invariant every message keeps. */
    ghost predicate Valid()
      reads this
    {
      Stored(groups, groupExpenses, memberGroups, nextGroupId)
    }

    /** `Splitmate::new(token_address)`: empty storage, group ids from 1. */
    constructor New(tokenAddress: AccountId)
      ensures Valid()
      ensures this.tokenAddress == tokenAddress
      ensures groups == map[] && groupExpenses == map[] && memberGroups == map[]
      ensures nextGroupId == 1
    {
      this.tokenAddress := tokenAddress;
      groups := map[];
      groupExpenses := map[];
      memberGroups := map[];
      nextGroupId := 1;
    }

    /** The older `Splitmate::new()`: empty storage, group ids from 0. It has
        no token, so the token address is left at 0. */
    constructor NewLegacy()
      ensures Valid()
      ensures tokenAddress == 0
      ensures groups == map[] && groupExpenses == map[] && memberGroups == map[]
      ensures nextGroupId == 0
    {
      tokenAddress := 0;
      groups := map[];
      groupExpenses := map[];
      memberGroups := map[];
      nextGroupId := 0;
    }

    /** `add_group(members_to_add)`: a group with id `next_group_id` whose
        members are the listed accounts in order, each at balance 0; the id
        appended to each listed account's group list once per listing; the
        counter advanced. When the counter is at `u128::MAX` the final
        `checked_add(1).unwrap()` traps and every write of the call is
        reverted. */
    method AddGroup(membersToAdd: seq<AccountId>) returns (r: Result<()>)
      requires Valid()
      modifies this
      ensures Valid()
      ensures old(nextGroupId) == U128_MAX ==> r == Panic && unchanged(this)
      ensures old(nextGroupId) < U128_MAX ==>
                && r == Ok(())
                && nextGroupId == old(nextGroupId) + 1
                && old(nextGroupId) !in old(groups)
                && old(nextGroupId) in groups
                && groups == old(groups)[old(nextGroupId) := Group(old(nextGroupId), groups[old(nextGroupId)].members, 1)]
                && Addresses(groups[old(nextGroupId)].members) == membersToAdd
                && (forall m :: m in groups[old(nextGroupId)].members ==> m.debtValue == 0)
                && memberGroups == Register(old(memberGroups), membersToAdd, old(nextGroupId))
                && groupExpenses == old(groupExpenses)
                && tokenAddress == old(tokenAddress)
    {
      if nextGroupId == U128_MAX {
        return Panic;
      }
      var id := nextGroupId;
      var newGroupMembers: seq<GroupMember> := [];
      var k := 0;
      while k < |membersToAdd|
        invariant 0 <= k <= |membersToAdd|
        invariant Addresses(newGroupMembers) == membersToAdd[..k]
        invariant forall m :: m in newGroupMembers ==> m.debtValue == 0
        invariant memberGroups == Register(old(memberGroups), membersToAdd[..k], id)
        invariant groups == old(groups) && groupExpenses == old(groupExpenses)
        invariant nextGroupId == id && tokenAddress == old(tokenAddress)
      {
        var memberToAdd := membersToAdd[k];
        var memberToAddGroups := GroupsOf(memberGroups, memberToAdd);
        memberToAddGroups := memberToAddGroups + [id];
        memberGroups := memberGroups[memberToAdd := memberToAddGroups];
        newGroupMembers := newGroupMembers + [GroupMember(memberToAdd, 0)];
        assert membersToAdd[..k + 1][..k] == membersToAdd[..k];
        k := k + 1;
      }
      assert membersToAdd[..k] == membersToAdd;
      AddGroupKeepsStored(groups, groupExpenses, old(memberGroups), id, newGroupMembers);
      groups := groups[id := Group(id, newGroupMembers, 1)];
      nextGroupId := nextGroupId + 1;
      return Ok(());
    }

    /** `add_expense(expense_to_add)` by `caller`: the membership gate, then
        the expense built, validated and posted to a copy of the group; only
        on success is the expense appended to the group's log and the posted
        group, its expense counter advanced, stored. A returned error or a
        trap leaves the storage as it was. */
    method AddExpense(caller: AccountId, expenseToAdd: ExpenseInput) returns (r: Result<()>)
      requires Valid()
      requires InputFitsI128(expenseToAdd)
      modifies this
      ensures Valid()
      ensures CheckGroupMembership(old(groups), old(memberGroups), caller, expenseToAdd.groupId).Err? ==>
                r == Err(CheckGroupMembership(old(groups), old(memberGroups), caller, expenseToAdd.groupId).error)
      ensures CheckGroupMembership(old(groups), old(memberGroups), caller, expenseToAdd.groupId).Ok? ==>
                r == Discard(PostedGroup(CheckGroupMembership(old(groups), old(memberGroups), caller, expenseToAdd.groupId).value, expenseToAdd))
      ensures !r.Ok? ==> unchanged(this)
      ensures r.Ok? ==>
                var posted := PostedGroup(old(groups)[expenseToAdd.groupId], expenseToAdd).value;
                && groups == old(groups)[expenseToAdd.groupId := posted.0]
                && groupExpenses == old(groupExpenses)[expenseToAdd.groupId := LogOf(old(groupExpenses), expenseToAdd.groupId) + [posted.1]]
                && memberGroups == old(memberGroups)
                && nextGroupId == old(nextGroupId)
                && tokenAddress == old(tokenAddress)
    {
      var checked := CheckGroupMembership(groups, memberGroups, caller, expenseToAdd.groupId);
      if checked.Err? {
        return Err(checked.error);
      }
      var posted := PostToGroup(checked.value, expenseToAdd);
      if posted.Err? {
        return Err(posted.error);
      }
      if posted.Panic? {
        return Panic;
      }
      var group := posted.value.0;
      var expense := posted.value.1;
      var groupExpensesList := LogOf(groupExpenses, expense.groupId);
      groupExpensesList := groupExpensesList + [expense];
      AddExpenseKeepsStored(groups, groupExpenses, memberGroups, nextGroupId, expense.groupId, group, expense);
      groupExpenses := groupExpenses[expense.groupId := groupExpensesList];
      groups := groups[expense.groupId := group];
      return Ok(());
    }

    /** `get_group_distribution(group_id)` by `caller`: the membership gate,
        then the settlement plan of the stored group's balances. Nothing is
        written. */
    method GetGroupDistribution(caller: AccountId, groupId: nat) returns (r: Result<seq<GroupMemberDistribution>>)
      ensures CheckGroupMembership(groups, memberGroups, caller, groupId).Err? ==>
                r == Err(CheckGroupMembership(groups, memberGroups, caller, groupId).error)
      ensures CheckGroupMembership(groups, memberGroups, caller, groupId).Ok? ==>
                r == GroupDistribution(CheckGroupMembership(groups, memberGroups, caller, groupId).value.members)
    {
      var checked := CheckGroupMembership(groups, memberGroups, caller, groupId);
      if checked.Err? {
        return Err(checked.error);
      }
      r := DistributeGroup(checked.value.members);
    }

    /** `settle_up(debts_to_pay)` by `caller`, the `k`-th transfer of the call
        succeeding exactly when `transferOk(k)`: the outcome `Settle` defines.
        The method changes nothing: the groups it credits and debits are local
        copies that are never stored back. */
    method SettleUp(caller: AccountId, debtsToPay: seq<GroupDebtsToPay>, transferOk: nat -> bool)
      returns (r: Result<SettleUpResult>)
      requires SumsFitI128(debtsToPay)
      ensures r == Settle(groups, memberGroups, caller, debtsToPay, transferOk)
    {
      var totalSettledDebts: seq<GroupSettledDebts> := [];
      var transfer: nat := 0;
      var pending := debtsToPay;
      while pending != []
        invariant SumsFitI128(pending)
        invariant Settle(groups, memberGroups, caller, debtsToPay, transferOk)
                  == SettleFrom(groups, memberGroups, caller, pending, transferOk, transfer, totalSettledDebts)
        decreases |pending|
      {
        var groupDebtsToPay := pending[0];
        var checked := CheckGroupMembership(groups, memberGroups, caller, groupDebtsToPay.groupId);
        if checked.Err? {
          return Err(checked.error);
        }
        var run := SettleGroupDebts(checked.value, caller, groupDebtsToPay.takers, transferOk, transfer);
        if run.Err? {
          return Err(run.error);
        }
        if run.Panic? {
          return Panic;
        }
        totalSettledDebts := totalSettledDebts + [GroupSettledDebts(checked.value.id, run.value.settled)];
        if run.value.failed {
          return Ok(SettleUpResult(false, Some(totalSettledDebts)));
        }
        transfer := transfer + |groupDebtsToPay.takers|;
        pending := pending[1..];
      }
      return Ok(SettleUpResult(true, None));
    }
  }
}
