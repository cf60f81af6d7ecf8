/** The ledger primitives of the contract: expense posting, the balance update
    used by settlement, the taker search of the settlement planner, and the
    membership gate. */
module Utils {
  import opened Types
  import opened Vectors

  // ---------------------------------------------------------------------------
  // Views of a member list

  /** `debt_value.abs()`. */
  function Magnitude(m: GroupMember): nat {
    if m.debtValue < 0 then -m.debtValue else m.debtValue
  }

  /** The search predicate "this member has address `a`". */
  function HasAddress(a: AccountId): GroupMember -> bool {
    (m: GroupMember) => m.memberAddress == a
  }

  function Addresses(ms: seq<GroupMember>): (r: seq<AccountId>)
    ensures |r| == |ms|
    ensures forall i :: 0 <= i < |ms| ==> r[i] == ms[i].memberAddress
  {
    seq(|ms|, i requires 0 <= i < |ms| => ms[i].memberAddress)
  }

  /** The sum of all balances of a group. */
  function Total(ms: seq<GroupMember>): int {
    if ms == [] then 0 else ms[0].debtValue + Total(ms[1..])
  }

  /** The balance held under address `a` (the sum over the entries with that
      address; a single balance when addresses are distinct). */
  function DebtOf(ms: seq<GroupMember>, a: AccountId): int {
    if ms == [] then 0 else (if ms[0].memberAddress == a then ms[0].debtValue else 0) + DebtOf(ms[1..], a)
  }

  lemma {:induction false} TotalAppend(s: seq<GroupMember>, t: seq<GroupMember>)
    ensures Total(s + t) == Total(s) + Total(t)
    ensures forall a :: DebtOf(s + t, a) == DebtOf(s, a) + DebtOf(t, a)
  {
    if s != [] {
      assert (s + t)[1..] == s[1..] + t;
      TotalAppend(s[1..], t);
    } else {
      assert s + t == t;
    }
  }

  lemma TotalSingle(m: GroupMember)
    ensures Total([m]) == m.debtValue
    ensures forall a :: DebtOf([m], a) == if m.memberAddress == a then m.debtValue else 0
  {
    assert [m][1..] == [];
  }

  lemma TotalRemoveAt(s: seq<GroupMember>, i: nat)
    requires i < |s|
    ensures Total(RemoveAt(s, i)) == Total(s) - s[i].debtValue
    ensures forall a :: DebtOf(RemoveAt(s, i), a) == DebtOf(s, a) - (if s[i].memberAddress == a then s[i].debtValue else 0)
  {
    assert s == s[..i] + [s[i]] + s[i + 1..];
    TotalAppend(s[..i] + [s[i]], s[i + 1..]);
    TotalAppend(s[..i], [s[i]]);
    TotalAppend(s[..i], s[i + 1..]);
    TotalSingle(s[i]);
  }

  // ---------------------------------------------------------------------------
  // The update idiom: remove the member, push it back at the end

  /** Remove the member at `i` and push it back at the end with balance `debt`. */
  function MoveToEnd(members: seq<GroupMember>, i: nat, debt: int): (r: seq<GroupMember>)
    requires i < |members|
    ensures |r| == |members|
  {
    RemoveAt(members, i) + [members[i].(debtValue := debt)]
  }

  /** The moved member, with its new balance, is last; the others keep their
      order. */
  lemma MoveToEndShape(members: seq<GroupMember>, i: nat, debt: int)
    requires i < |members|
    ensures var r := MoveToEnd(members, i, debt);
            && r[..|r| - 1] == RemoveAt(members, i)
            && r[|r| - 1] == members[i].(debtValue := debt)
  {
  }

  lemma AddressesRemoveAt(s: seq<GroupMember>, i: nat, m: GroupMember)
    requires i < |s| && m.memberAddress == s[i].memberAddress
    ensures multiset(Addresses(RemoveAt(s, i) + [m])) == multiset(Addresses(s))
  {
    var a := Addresses(s);
    assert Addresses(RemoveAt(s, i) + [m]) == RemoveAt(a, i) + [a[i]];
    RemoveAtMultiset(a, i);
  }

  /** Moving a member to the end keeps the group's addresses, changes only that
      member's balance, and so changes the total by the same difference. */
  lemma MoveToEndEffect(members: seq<GroupMember>, i: nat, debt: int)
    requires i < |members|
    ensures multiset(Addresses(MoveToEnd(members, i, debt))) == multiset(Addresses(members))
    ensures Total(MoveToEnd(members, i, debt)) == Total(members) - members[i].debtValue + debt
    ensures forall a :: DebtOf(MoveToEnd(members, i, debt), a)
                        == DebtOf(members, a) + (if a == members[i].memberAddress then debt - members[i].debtValue else 0)
  {
    var rest := RemoveAt(members, i);
    var moved := members[i].(debtValue := debt);
    TotalRemoveAt(members, i);
    TotalAppend(rest, [moved]);
    TotalSingle(moved);
    AddressesRemoveAt(members, i, moved);
  }

  // ---------------------------------------------------------------------------
  // Expense posting

  /** The obligation of a taxed member is only defined when an equal split has
      someone to divide by. */
  predicate ShareDefined(e: Expense) {
    e.distributionType == Unequally || |e.members| > 0
  }

  /** `calculate_amount_to_pay_by_member`: the floor share of the amount for an
      equal split (`checked_div` by the member count, which panics on zero), the
      member's own `must_pay` otherwise. */
  function AmountToPay(e: Expense, m: ExpenseMember): (r: Result<nat>)
    ensures !r.Err?
    ensures r.Panic? <==> !ShareDefined(e)
    ensures r.Ok? && e.distributionType == Equally ==> r.value <= e.amount
    ensures r.Ok? && e.distributionType == Unequally ==> r.value == m.mustPay
  {
    match e.distributionType
    case Equally =>
      if |e.members| == 0 then Panic
      else
        ShareAtMostAmount(e.amount, |e.members|);
        Ok(e.amount / |e.members|)
    case Unequally => Ok(m.mustPay)
  }

  lemma ShareAtMostAmount(a: nat, n: nat)
    requires n > 0
    ensures a / n <= a
  {
    var q := a / n;
    MulAtLeast(q, n);
    assert a == q * n + a % n;
  }

  lemma {:induction false} MulAtLeast(q: nat, n: nat)
    requires n > 0
    ensures q * n >= q
  {
    if n > 1 {
      MulAtLeast(q, n - 1);
      assert q * n == q * (n - 1) + q;
    }
  }

  /** An equal share is the floor of the amount over the member count: whole
      shares never exceed the amount, and the remainder is less than one share
      per member. */
  lemma AmountToPayFloor(e: Expense, m: ExpenseMember)
    requires e.distributionType == Equally && |e.members| > 0
    ensures var share := AmountToPay(e, m).value;
            share * |e.members| <= e.amount < (share + 1) * |e.members|
            && e.amount - share * |e.members| == e.amount % |e.members|
  {
    var n := |e.members|;
    assert e.amount == (e.amount / n) * n + e.amount % n;
  }

  /** One iteration of `process_expense_debts`. */
  function PostStep(members: seq<GroupMember>, em: ExpenseMember, e: Expense): Result<seq<GroupMember>> {
    match FirstIndex(members, HasAddress(em.memberAddress))
    case None => Err(ExpenseDistributionMemberIsNotInTheGroup)
    case Some(i) =>
      match AmountToPay(e, em)
      case Ok(toPay) =>
        var debt := toPay - em.paid;
        var updated := members[i].debtValue + debt;
        if InI128(debt) && InI128(updated) then Ok(MoveToEnd(members, i, updated)) else Panic
      case _ => Panic
  }

  /** The expense members `ems` posted in order against `members`; the first
      unknown address or overflow ends it. */
  function PostExpense(members: seq<GroupMember>, ems: seq<ExpenseMember>, e: Expense): Result<seq<GroupMember>>
    decreases |ems|
  {
    if ems == [] then Ok(members)
    else match PostStep(members, ems[0], e)
      case Ok(next) => PostExpense(next, ems[1..], e)
      case Err(err) => Err(err)
      case Panic => Panic
  }

  /** One entry of the posting loop: what its step gives decides the rest. */
  lemma PostExpenseCons(members: seq<GroupMember>, em: ExpenseMember, tail: seq<ExpenseMember>, e: Expense)
    ensures PostStep(members, em, e).Ok? ==>
              PostExpense(members, [em] + tail, e) == PostExpense(PostStep(members, em, e).value, tail, e)
    ensures PostStep(members, em, e).Err? ==> PostExpense(members, [em] + tail, e) == PostStep(members, em, e)
    ensures PostStep(members, em, e).Panic? ==> PostExpense(members, [em] + tail, e) == Panic
  {
    assert ([em] + tail)[0] == em && ([em] + tail)[1..] == tail;
  }

  /** The step of an entry whose member sits at `i` and whose amounts fit. */
  lemma PostStepFound(members: seq<GroupMember>, em: ExpenseMember, e: Expense, i: nat, updated: int)
    requires FirstIndex(members, HasAddress(em.memberAddress)) == Some(i) && AmountToPay(e, em).Ok?
    requires InI128(AmountToPay(e, em).value - em.paid)
    requires updated == members[i].debtValue + (AmountToPay(e, em).value - em.paid) && InI128(updated)
    ensures PostStep(members, em, e) == Ok(MoveToEnd(members, i, updated))
  {
  }

  /** A result about a member list, lifted to the group that holds it. */
  /** Posting one entry panics exactly when its member is found but the equal
      share divides by zero, or `obligation − paid` or the new balance leaves
      `i128` (the `checked_sub` and `checked_add` of the loop body). */
  lemma PostStepPanics(members: seq<GroupMember>, em: ExpenseMember, e: Expense)
    ensures PostStep(members, em, e).Panic?
            <==> && FirstIndex(members, HasAddress(em.memberAddress)).Some?
                 && (|| !ShareDefined(e)
                     || !InI128(AmountToPay(e, em).value - em.paid)
                     || !InI128(members[FirstIndex(members, HasAddress(em.memberAddress)).value].debtValue
                                + (AmountToPay(e, em).value - em.paid)))
  {
  }

  function InGroup(g: Group, r: Result<seq<GroupMember>>): Result<Group> {
    match r
    case Ok(ms) => Ok(g.(members := ms))
    case Err(e) => Err(e)
    case Panic => Panic
  }

  /** The unsigned amounts of an expense fit `i128`, so the casts of
      `process_expense_debts` are exact. */
  predicate ExpenseFitsI128(e: Expense) {
    FitsI128(e.amount)
    && forall k :: 0 <= k < |e.members| ==> FitsI128(e.members[k].paid) && FitsI128(e.members[k].mustPay)
  }

  /** `process_expense_debts(group, expense)`. */
  method ProcessExpenseDebts(group: Group, expense: Expense) returns (r: Result<Group>)
    requires ExpenseFitsI128(expense)
    ensures r == InGroup(group, PostExpense(group.members, expense.members, expense))
  {
    var members := group.members;
    var k := 0;
    while k < |expense.members|
      invariant 0 <= k <= |expense.members|
      invariant PostExpense(group.members, expense.members, expense)
                == PostExpense(members, expense.members[k..], expense)
    {
      var em := expense.members[k];
      assert expense.members[k..] == [em] + expense.members[k + 1..];
      PostExpenseCons(members, em, expense.members[k + 1..], expense);
      var index := Position(members, HasAddress(em.memberAddress));
      if index.None? {
        assert PostStep(members, em, expense) == Err(ExpenseDistributionMemberIsNotInTheGroup);
        return Err(ExpenseDistributionMemberIsNotInTheGroup);
      }
      var i := index.value;
      var member := members[i];
      var amountToPay := AmountToPay(expense, em).value;
      var debt := amountToPay - em.paid;
      assert InI128(debt);
      var updated := member.debtValue + debt;
      if !InI128(updated) {
        assert PostStep(members, em, expense) == Panic;
        return Panic;
      }
      PostStepFound(members, em, expense, i, updated);
      members := MoveToEnd(members, i, updated);
      k := k + 1;
    }
    assert expense.members[k..] == [];
    return Ok(group.(members := members));
  }

  // ---------------------------------------------------------------------------
  // Balance update used by settlement

  /** `update_group_debt` on a member list: the first member with the address
      gains `amount` (a taker being paid) or loses it (the payer); an absent
      address or an overflow panics. */
  function UpdateDebt(members: seq<GroupMember>, memberAddress: AccountId, isTaker: bool, amount: nat): (r: Result<seq<GroupMember>>)
    ensures !r.Err?
  {
    match FirstIndex(members, HasAddress(memberAddress))
    case None => Panic
    case Some(i) =>
      var updated := if isTaker then members[i].debtValue + amount else members[i].debtValue - amount;
      if InI128(updated) then Ok(MoveToEnd(members, i, updated)) else Panic
  }

  /** Only an address in the group can be updated: any other makes the
      `unwrap` of the position panic. */
  lemma UpdateDebtNeedsMember(members: seq<GroupMember>, memberAddress: AccountId, isTaker: bool, amount: nat)
    ensures UpdateDebt(members, memberAddress, isTaker, amount).Ok? ==> memberAddress in Addresses(members)
    ensures memberAddress !in Addresses(members) ==> UpdateDebt(members, memberAddress, isTaker, amount) == Panic
  {
    match FirstIndex(members, HasAddress(memberAddress))
    case None =>
    case Some(i) =>
      assert Addresses(members)[i] == memberAddress;
  }

  /** An update panics exactly when the address is absent or the new balance
      leaves `i128` (the `checked_add` / `checked_sub`); otherwise it succeeds. */
  lemma UpdateDebtPanics(members: seq<GroupMember>, memberAddress: AccountId, isTaker: bool, amount: nat)
    ensures UpdateDebt(members, memberAddress, isTaker, amount).Panic?
            <==> || FirstIndex(members, HasAddress(memberAddress)).None?
                 || var m := members[FirstIndex(members, HasAddress(memberAddress)).value];
                    !InI128(if isTaker then m.debtValue + amount else m.debtValue - amount)
    ensures UpdateDebt(members, memberAddress, isTaker, amount).Ok? <==> !UpdateDebt(members, memberAddress, isTaker, amount).Panic?
  {
  }

  /** The position scan by address finds nothing exactly when the address is
      not in the group. */
  lemma AddressIndex(members: seq<GroupMember>, a: AccountId)
    ensures FirstIndex(members, HasAddress(a)).None? <==> a !in Addresses(members)
  {
    FirstIndexSpec(members, HasAddress(a));
    if a in Addresses(members) {
      var j :| 0 <= j < |members| && Addresses(members)[j] == a;
      assert HasAddress(a)(members[j]);
    }
  }

  /** A successful update keeps the members' addresses, moves the addressed
      member to the end, and changes only that member's balance, by exactly the
      signed amount. */
  lemma UpdateDebtEffect(members: seq<GroupMember>, memberAddress: AccountId, isTaker: bool, amount: nat)
    requires UpdateDebt(members, memberAddress, isTaker, amount).Ok?
    ensures var r := UpdateDebt(members, memberAddress, isTaker, amount).value;
            var delta: int := if isTaker then amount as int else -(amount as int);
            && |r| == |members|
            && r[|r| - 1].memberAddress == memberAddress
            && r[..|r| - 1] == RemoveAt(members, FirstIndex(members, HasAddress(memberAddress)).value)
            && multiset(Addresses(r)) == multiset(Addresses(members))
            && Total(r) == Total(members) + delta
            && forall a :: DebtOf(r, a) == DebtOf(members, a) + (if a == memberAddress then delta else 0)
  {
    var i := FirstIndex(members, HasAddress(memberAddress)).value;
    var updated := if isTaker then members[i].debtValue + amount else members[i].debtValue - amount;
    assert UpdateDebt(members, memberAddress, isTaker, amount).value == MoveToEnd(members, i, updated);
    MoveToEndEffect(members, i, updated);
    MoveToEndShape(members, i, updated);
  }

  /** `update_group_debt(group, member_address, is_taker, amount)`. */
  method UpdateGroupDebt(group: Group, memberAddress: AccountId, isTaker: bool, amount: nat) returns (r: Result<Group>)
    requires FitsI128(amount)
    ensures r == InGroup(group, UpdateDebt(group.members, memberAddress, isTaker, amount))
  {
    var position := Position(group.members, HasAddress(memberAddress));
    if position.None? {
      return Panic;
    }
    var i := position.value;
    var member := group.members[i];
    var updated := if isTaker then member.debtValue + amount else member.debtValue - amount;
    if !InI128(updated) {
      return Panic;
    }
    return Ok(group.(members := RemoveAt(group.members, i) + [member.(debtValue := updated)]));
  }

  // ---------------------------------------------------------------------------
  // The taker search of the settlement planner

  /** "The taker's balance is exactly the giver's pending amount." */
  function SameBalance(pending: nat): GroupMember -> bool {
    (m: GroupMember) => Magnitude(m) == pending
  }

  /** "The taker's balance exceeds the giver's pending amount." */
  function MoreBalance(pending: nat): GroupMember -> bool {
    (m: GroupMember) => Magnitude(m) > pending
  }

  /** `find_receiver_by` / `find_taker_by` on a taker list: the first taker
      satisfying `p` is removed and its address returned; with no such taker
      the list is left as it is. */
  function TakeFirst(takers: seq<GroupMember>, p: GroupMember -> bool): (r: (Option<AccountId>, seq<GroupMember>))
    ensures r.0.None? <==> !AnyMatch(takers, p)
    ensures r.0.None? ==> r.1 == takers
    ensures r.0.Some? ==> exists i :: IsFirstMatch(takers, p, i)
                                     && r.0.value == takers[i].memberAddress
                                     && r.1 == RemoveAt(takers, i)
  {
    FirstIndexSpec(takers, p);
    match FirstIndex(takers, p)
    case Some(i) => (Some(takers[i].memberAddress), RemoveAt(takers, i))
    case None => (None, takers)
  }

  /** `find_taker_by(takers, p)`. */
  method FindTakerBy(takers: seq<GroupMember>, p: GroupMember -> bool) returns (found: Option<AccountId>, rest: seq<GroupMember>)
    ensures (found, rest) == TakeFirst(takers, p)
  {
    var position := Position(takers, p);
    if position.Some? {
      found := Some(takers[position.value].memberAddress);
      rest := RemoveAt(takers, position.value);
    } else {
      found := None;
      rest := takers;
    }
  }

  /** `process_giver_debt(pending, takers)` as a value: the transfer it emits
      and the takers left, or a panic when the pool is empty. A search that
      finds nothing leaves the pool as it was, so each choice is a search of
      the pool as given. */
  function GiverStep(pending: nat, takers: seq<GroupMember>): (r: Result<(GroupMemberDistributionTransfer, seq<GroupMember>)>)
    ensures !r.Err?
    ensures r.Panic? <==> takers == []
    ensures r.Ok? ==> r.value.0.value <= pending && |r.value.1| == |takers| - 1
  {
    match FirstIndex(takers, SameBalance(pending))
    case Some(i) => Ok((GroupMemberDistributionTransfer(takers[i].memberAddress, pending), RemoveAt(takers, i)))
    case None =>
      match FirstIndex(takers, MoreBalance(pending))
      case Some(i) => Ok((GroupMemberDistributionTransfer(takers[i].memberAddress, pending), RemoveAt(takers, i)))
      case None =>
        if takers == [] then Panic
        else
          assert !SameBalance(pending)(takers[0]) && !MoreBalance(pending)(takers[0]);
          Ok((GroupMemberDistributionTransfer(takers[0].memberAddress, Magnitude(takers[0])), takers[1..]))
  }

  /** First choice: the first taker whose balance equals the pending amount is
      removed from the pool and receives all of it. */
  lemma GiverStepExact(pending: nat, takers: seq<GroupMember>)
    requires AnyMatch(takers, SameBalance(pending))
    ensures exists i :: IsFirstMatch(takers, SameBalance(pending), i)
                        && GiverStep(pending, takers)
                           == Ok((GroupMemberDistributionTransfer(takers[i].memberAddress, pending), RemoveAt(takers, i)))
  {
    FirstIndexSpec(takers, SameBalance(pending));
    var i := FirstIndex(takers, SameBalance(pending)).value;
  }

  /** Second choice: the first taker whose balance exceeds the pending amount
      is removed from the pool entirely (what it is still owed beyond the
      pending amount is not kept) and receives the pending amount. */
  lemma GiverStepLarger(pending: nat, takers: seq<GroupMember>)
    requires !AnyMatch(takers, SameBalance(pending)) && AnyMatch(takers, MoreBalance(pending))
    ensures exists i :: IsFirstMatch(takers, MoreBalance(pending), i)
                        && GiverStep(pending, takers)
                           == Ok((GroupMemberDistributionTransfer(takers[i].memberAddress, pending), RemoveAt(takers, i)))
  {
    FirstIndexSpec(takers, SameBalance(pending));
    FirstIndexSpec(takers, MoreBalance(pending));
    var i := FirstIndex(takers, MoreBalance(pending)).value;
  }

  /** Last choice: every taker owes less than the pending amount, and the front
      taker is removed and receives its whole balance. */
  lemma GiverStepFront(pending: nat, takers: seq<GroupMember>)
    requires !AnyMatch(takers, SameBalance(pending)) && !AnyMatch(takers, MoreBalance(pending)) && takers != []
    ensures Magnitude(takers[0]) < pending
    ensures GiverStep(pending, takers)
            == Ok((GroupMemberDistributionTransfer(takers[0].memberAddress, Magnitude(takers[0])), takers[1..]))
  {
    FirstIndexSpec(takers, SameBalance(pending));
    FirstIndexSpec(takers, MoreBalance(pending));
    assert !SameBalance(pending)(takers[0]) && !MoreBalance(pending)(takers[0]);
  }

  /** Whatever the branch, one step removes exactly one taker, keeps the others
      in order, pays that taker's address, and pays the smaller of its balance
      and the pending amount. */
  lemma GiverStepPool(pending: nat, takers: seq<GroupMember>)
    requires GiverStep(pending, takers).Ok?
    ensures var (t, rest) := GiverStep(pending, takers).value;
            exists i :: 0 <= i < |takers|
                        && rest == RemoveAt(takers, i)
                        && t.memberAccount == takers[i].memberAddress
                        && t.value == (if Magnitude(takers[i]) < pending then Magnitude(takers[i]) else pending)
  {
    var (t, rest) := GiverStep(pending, takers).value;
    if AnyMatch(takers, SameBalance(pending)) {
      GiverStepExact(pending, takers);
      var i :| IsFirstMatch(takers, SameBalance(pending), i)
               && GiverStep(pending, takers)
                  == Ok((GroupMemberDistributionTransfer(takers[i].memberAddress, pending), RemoveAt(takers, i)));
      assert SameBalance(pending)(takers[i]);
    } else if AnyMatch(takers, MoreBalance(pending)) {
      GiverStepLarger(pending, takers);
      var i :| IsFirstMatch(takers, MoreBalance(pending), i)
               && GiverStep(pending, takers)
                  == Ok((GroupMemberDistributionTransfer(takers[i].memberAddress, pending), RemoveAt(takers, i)));
      assert MoreBalance(pending)(takers[i]);
    } else {
      GiverStepFront(pending, takers);
      assert RemoveAt(takers, 0) == takers[1..];
    }
  }

  /** `process_giver_debt(debt_value, takers)`. */
  method ProcessGiverDebt(debtValue: nat, takers: seq<GroupMember>)
    returns (r: Result<GroupMemberDistributionTransfer>, rest: seq<GroupMember>)
    ensures !r.Err?
    ensures r.Panic? ==> GiverStep(debtValue, takers) == Panic
    ensures r.Ok? ==> GiverStep(debtValue, takers) == Ok((r.value, rest))
  {
    var same, afterSame := FindTakerBy(takers, SameBalance(debtValue));
    if same.Some? {
      return Ok(GroupMemberDistributionTransfer(same.value, debtValue)), afterSame;
    }
    var more, afterMore := FindTakerBy(afterSame, MoreBalance(debtValue));
    if more.Some? {
      return Ok(GroupMemberDistributionTransfer(more.value, debtValue)), afterMore;
    }
    if |afterMore| == 0 {
      // `takers[0]` on an empty vector
      return Panic, afterMore;
    }
    var taker := afterMore[0];
    assert afterMore == takers;
    assert RemoveAt(afterMore, 0) == takers[1..];
    return Ok(GroupMemberDistributionTransfer(taker.memberAddress, Magnitude(taker))), RemoveAt(afterMore, 0);
  }

  // ---------------------------------------------------------------------------
  // The membership gate

  /** `get_group_by_id`. */
  function GetGroupById(groups: map<nat, Group>, groupId: nat): (r: Result<Group>)
    ensures r.Ok? <==> groupId in groups
    ensures r.Ok? ==> r.value == groups[groupId]
    ensures !r.Ok? ==> r == Err(GroupDoesNotExist)
  {
    if groupId in groups then Ok(groups[groupId]) else Err(GroupDoesNotExist)
  }

  /** `check_group_membership(instance, group_id)` for the caller `caller`: an
      unknown group is reported before a caller who has no index entry or whose
      entry lacks the group; otherwise the stored group is returned. */
  function CheckGroupMembership(groups: map<nat, Group>, memberGroups: map<AccountId, seq<nat>>, caller: AccountId, groupId: nat)
    : (r: Result<Group>)
    ensures groupId !in groups ==> r == Err(GroupDoesNotExist)
    ensures groupId in groups && (caller !in memberGroups || groupId !in memberGroups[caller]) ==>
              r == Err(MemberIsNotInTheGroup)
    ensures groupId in groups && caller in memberGroups && groupId in memberGroups[caller] ==>
              r == Ok(groups[groupId])
  {
    match GetGroupById(groups, groupId)
    case Ok(group) =>
      if caller in memberGroups then
        if groupId !in memberGroups[caller] then Err(MemberIsNotInTheGroup) else Ok(group)
      else Err(MemberIsNotInTheGroup)
    case Err(e) => Err(e)
    case Panic => Panic
  }
}
