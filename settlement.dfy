/** The settlement executor `settle_up`: for every requested group, one PSP22
    transfer per taker in order; a successful transfer credits the taker in a
    local copy of the group, the first failed one ends the whole call after
    debiting the caller by what that group's earlier transfers paid. The
    transfer itself is an oracle: `transferOk(k)` is the outcome of the `k`-th
    transfer of the call, counted from 0 across all groups. */
module Settlement {
  import opened Types
  import opened Vectors
  import opened Expenses
  import opened Utils

  /** What the takers' loop of one group leaves: the local copy of the group,
      the takers paid, the running total, and whether a transfer failed. */
  datatype GroupRun = GroupRun(group: Group, settled: seq<AccountId>, paid: nat, failed: bool)

  /** How many transfers succeed in a row from ordinal `k`, at most `n`. */
  function LeadingSuccesses(transferOk: nat -> bool, k: nat, n: nat): (r: nat)
    ensures r <= n
    decreases n
  {
    if n == 0 || !transferOk(k) then 0 else 1 + LeadingSuccesses(transferOk, k + 1, n - 1)
  }

  /** The transfers counted succeed, and the one after them, if still within
      the `n`, fails. */
  lemma {:induction false} LeadingSuccessesSpec(transferOk: nat -> bool, k: nat, n: nat)
    ensures forall j :: k <= j < k + LeadingSuccesses(transferOk, k, n) ==> transferOk(j)
    ensures LeadingSuccesses(transferOk, k, n) < n ==> !transferOk(k + LeadingSuccesses(transferOk, k, n))
    decreases n
  {
    if n > 0 && transferOk(k) {
      LeadingSuccessesSpec(transferOk, k + 1, n - 1);
    }
  }

  /** The addresses of some takers, in order. */
  function TakerAddresses(takers: seq<DistributionByMemberInput>): (r: seq<AccountId>)
    ensures |r| == |takers|
  {
    if takers == [] then [] else [takers[0].memberAddress] + TakerAddresses(takers[1..])
  }

  lemma {:induction false} TakerAddressesAt(takers: seq<DistributionByMemberInput>, i: nat)
    requires i < |takers|
    ensures TakerAddresses(takers)[i] == takers[i].memberAddress
  {
    if i > 0 {
      TakerAddressesAt(takers[1..], i - 1);
    }
  }

  /** The addresses of a prefix are the prefix of the addresses. */
  lemma {:induction false} TakerAddressesPrefix(takers: seq<DistributionByMemberInput>, n: nat)
    requires n <= |takers|
    ensures TakerAddresses(takers[..n]) == TakerAddresses(takers)[..n]
  {
    if n > 0 {
      assert takers[..n][1..] == takers[1..][..n - 1];
      TakerAddressesPrefix(takers[1..], n - 1);
    }
  }

  /** What the takers naming `a` are paid in total. */
  function CreditFor(takers: seq<DistributionByMemberInput>, a: AccountId): nat {
    if takers == [] then 0
    else (if takers[0].memberAddress == a then takers[0].value else 0) + CreditFor(takers[1..], a)
  }

  /** How many transfers a request asks for. */
  function TransferCount(debts: seq<GroupDebtsToPay>): nat {
    if debts == [] then 0 else |debts[0].takers| + TransferCount(debts[1..])
  }

  /** The `for taker in takers` loop of one group from transfer ordinal `k`,
      `settled` and `paid` holding what the earlier takers gave: a failed
      transfer stops the loop; a successful one credits the taker
      (`update_group_debt(.., true, value)`, which panics on an absent address
      or an overflow) and adds its value to the `u128` running total. */
  function Credit(group: Group, takers: seq<DistributionByMemberInput>, transferOk: nat -> bool, k: nat,
                  settled: seq<AccountId>, paid: nat): Result<GroupRun>
    decreases |takers|, 1
  {
    if takers == [] then Ok(GroupRun(group, settled, paid, false))
    else if !transferOk(k) then Ok(GroupRun(group, settled, paid, true))
    else CreditFirst(group, takers, transferOk, k, settled, paid)
  }

  /** A successful transfer to the first taker: its credit, then the loop
      from the next taker. */
  function CreditFirst(group: Group, takers: seq<DistributionByMemberInput>, transferOk: nat -> bool, k: nat,
                       settled: seq<AccountId>, paid: nat): Result<GroupRun>
    requires takers != []
    decreases |takers|, 0
  {
    var taker := takers[0];
    var updated := UpdateDebt(group.members, taker.memberAddress, true, taker.value);
    if !updated.Ok? || paid + taker.value > U128_MAX then Panic
    else Credit(group.(members := updated.value), takers[1..], transferOk, k + 1,
                settled + [taker.memberAddress], paid + taker.value)
  }

  /** One group of `settle_up`: the takers' loop, then the caller debited by
      the running total, whether the loop ended by a failure or not. */
  function SettleGroup(group: Group, caller: AccountId, takers: seq<DistributionByMemberInput>,
                       transferOk: nat -> bool, k: nat): Result<GroupRun>
  {
    match Credit(group, takers, transferOk, k, [], 0)
    case Ok(run) =>
      var debited := UpdateDebt(run.group.members, caller, false, run.paid);
      if debited.Ok? then Ok(run.(group := run.group.(members := debited.value))) else Panic
    case Err(e) => Err(e)
    case Panic => Panic
  }

  /** The `for group_debts_to_pay in debts_to_pay` loop from transfer ordinal
      `k`, `acc` holding the settled lists of the groups done so far: a
      membership error ends the call with that error, a failed transfer with
      `result: false` and the lists so far, and running out of groups with
      `result: true` and no lists. */
  function SettleFrom(groups: map<nat, Group>, memberGroups: map<AccountId, seq<nat>>, caller: AccountId,
                      debts: seq<GroupDebtsToPay>, transferOk: nat -> bool, k: nat, acc: seq<GroupSettledDebts>)
    : Result<SettleUpResult>
    decreases |debts|
  {
    if debts == [] then Ok(SettleUpResult(true, None))
    else
      match CheckGroupMembership(groups, memberGroups, caller, debts[0].groupId)
      case Err(e) => Err(e)
      case Panic => Panic
      case Ok(group) =>
        match SettleGroup(group, caller, debts[0].takers, transferOk, k)
        case Err(e) => Err(e)
        case Panic => Panic
        case Ok(run) =>
          var acc' := acc + [GroupSettledDebts(group.id, run.settled)];
          if run.failed then Ok(SettleUpResult(false, Some(acc')))
          else SettleFrom(groups, memberGroups, caller, debts[1..], transferOk, k + |debts[0].takers|, acc')
  }

  /** `settle_up(debts_to_pay)` called by `caller`. */
  function Settle(groups: map<nat, Group>, memberGroups: map<AccountId, seq<nat>>, caller: AccountId,
                  debts: seq<GroupDebtsToPay>, transferOk: nat -> bool): Result<SettleUpResult>
  {
    SettleFrom(groups, memberGroups, caller, debts, transferOk, 0, [])
  }

  // ---------------------------------------------------------------------------
  // One group

  /** A successful transfer whose credit neither panics nor overflows the
      running total hands the rest of the takers to the next iteration. */
  lemma CreditStep(group: Group, takers: seq<DistributionByMemberInput>, transferOk: nat -> bool, k: nat,
                   settled: seq<AccountId>, paid: nat, updated: seq<GroupMember>)
    requires takers != [] && transferOk(k)
    requires UpdateDebt(group.members, takers[0].memberAddress, true, takers[0].value) == Ok(updated)
    requires paid + takers[0].value <= U128_MAX
    ensures Credit(group, takers, transferOk, k, settled, paid)
            == Credit(group.(members := updated), takers[1..], transferOk, k + 1,
                      settled + [takers[0].memberAddress], paid + takers[0].value)
  {
  }

  /** One successful transfer of the takers' loop, when the loop does not
      panic: the credited members, and the loop going on from the next taker
      and the next transfer ordinal. */
  lemma CreditNext(group: Group, takers: seq<DistributionByMemberInput>, transferOk: nat -> bool, k: nat,
                   settled: seq<AccountId>, paid: nat)
    returns (updated: seq<GroupMember>)
    requires takers != [] && transferOk(k)
    requires Credit(group, takers, transferOk, k, settled, paid).Ok?
    ensures UpdateDebt(group.members, takers[0].memberAddress, true, takers[0].value) == Ok(updated)
    ensures paid + takers[0].value <= U128_MAX
    ensures Credit(group, takers, transferOk, k, settled, paid)
            == Credit(group.(members := updated), takers[1..], transferOk, k + 1,
                      settled + [takers[0].memberAddress], paid + takers[0].value)
    ensures LeadingSuccesses(transferOk, k, |takers|) == 1 + LeadingSuccesses(transferOk, k + 1, |takers[1..]|)
    ensures takers[..LeadingSuccesses(transferOk, k, |takers|)]
            == [takers[0]] + takers[1..][..LeadingSuccesses(transferOk, k + 1, |takers[1..]|)]
  {
    updated := UpdateDebt(group.members, takers[0].memberAddress, true, takers[0].value).value;
  }

  lemma TakersCons(t: DistributionByMemberInput, s: seq<DistributionByMemberInput>)
    ensures TakerAddresses([t] + s) == [t.memberAddress] + TakerAddresses(s)
    ensures SumValues([t] + s) == t.value + SumValues(s)
    ensures forall a :: CreditFor([t] + s, a) == (if t.memberAddress == a then t.value else 0) + CreditFor(s, a)
  {
    assert ([t] + s)[1..] == s;
  }

  /** The takers' loop, when it does not panic, pays exactly the takers before
      the first failed transfer, records their addresses in order, adds their
      values to the running total, and reports a failure exactly when it
      stopped before the last taker. */
  lemma {:induction false} CreditRun(group: Group, takers: seq<DistributionByMemberInput>, transferOk: nat -> bool, k: nat,
                                     settled: seq<AccountId>, paid: nat)
    requires Credit(group, takers, transferOk, k, settled, paid).Ok?
    ensures var run := Credit(group, takers, transferOk, k, settled, paid).value;
            && run.settled == settled + TakerAddresses(takers[..LeadingSuccesses(transferOk, k, |takers|)])
            && run.paid == paid + SumValues(takers[..LeadingSuccesses(transferOk, k, |takers|)])
            && (run.failed <==> LeadingSuccesses(transferOk, k, |takers|) < |takers|)
    decreases |takers|
  {
    if takers != [] && transferOk(k) {
      var updated := CreditNext(group, takers, transferOk, k, settled, paid);
      CreditRun(group.(members := updated), takers[1..], transferOk, k + 1,
                settled + [takers[0].memberAddress], paid + takers[0].value);
      TakersCons(takers[0], takers[1..][..LeadingSuccesses(transferOk, k + 1, |takers[1..]|)]);
    }
  }

  /** The takers' loop, when it does not panic, keeps the group's addresses
      and credits every address by what the paid takers naming it received. */
  lemma {:induction false} CreditBalances(group: Group, takers: seq<DistributionByMemberInput>, transferOk: nat -> bool, k: nat,
                                          settled: seq<AccountId>, paid: nat)
    requires Credit(group, takers, transferOk, k, settled, paid).Ok?
    ensures var run := Credit(group, takers, transferOk, k, settled, paid).value;
            && multiset(Addresses(run.group.members)) == multiset(Addresses(group.members))
            && run.group.id == group.id
            && forall a :: DebtOf(run.group.members, a)
                           == DebtOf(group.members, a) + CreditFor(takers[..LeadingSuccesses(transferOk, k, |takers|)], a)
    decreases |takers|
  {
    if takers != [] && transferOk(k) {
      var updated := CreditNext(group, takers, transferOk, k, settled, paid);
      UpdateDebtEffect(group.members, takers[0].memberAddress, true, takers[0].value);
      CreditBalances(group.(members := updated), takers[1..], transferOk, k + 1,
                     settled + [takers[0].memberAddress], paid + takers[0].value);
      TakersCons(takers[0], takers[1..][..LeadingSuccesses(transferOk, k + 1, |takers[1..]|)]);
    }
  }

  /** The takers' loop moves the group's total by what it paid. */
  lemma {:induction false} CreditTotal(group: Group, takers: seq<DistributionByMemberInput>, transferOk: nat -> bool, k: nat,
                                       settled: seq<AccountId>, paid: nat)
    requires Credit(group, takers, transferOk, k, settled, paid).Ok?
    ensures var run := Credit(group, takers, transferOk, k, settled, paid).value;
            Total(run.group.members) == Total(group.members) + run.paid - paid
    decreases |takers|
  {
    if takers != [] && transferOk(k) {
      var updated := CreditNext(group, takers, transferOk, k, settled, paid);
      UpdateDebtEffect(group.members, takers[0].memberAddress, true, takers[0].value);
      CreditTotal(group.(members := updated), takers[1..], transferOk, k + 1,
                  settled + [takers[0].memberAddress], paid + takers[0].value);
    }
  }

  /** One group of `settle_up`, when it does not panic, pays the takers before
      the first failed transfer and reports a failure exactly when one of its
      transfers failed. */
  lemma SettleGroupOutcome(group: Group, caller: AccountId, takers: seq<DistributionByMemberInput>, transferOk: nat -> bool, k: nat,
                           run: GroupRun)
    requires SettleGroup(group, caller, takers, transferOk, k) == Ok(run)
    ensures var n := LeadingSuccesses(transferOk, k, |takers|);
            && run.settled == TakerAddresses(takers)[..n]
            && (run.failed <==> n < |takers|)
  {
    CreditRun(group, takers, transferOk, k, [], 0);
    TakerAddressesPrefix(takers, LeadingSuccesses(transferOk, k, |takers|));
  }

  /** One group of `settle_up`, when it does not panic: the caller is debited
      by exactly what the paid prefix of the takers received, each taker is
      credited by its value, the group's total is unchanged, and the settled
      list is the paid prefix's addresses. */
  lemma SettleGroupEffect(group: Group, caller: AccountId, takers: seq<DistributionByMemberInput>, transferOk: nat -> bool, k: nat)
    requires SettleGroup(group, caller, takers, transferOk, k).Ok?
    ensures var n := LeadingSuccesses(transferOk, k, |takers|);
            var run := SettleGroup(group, caller, takers, transferOk, k).value;
            && run.settled == TakerAddresses(takers[..n])
            && run.paid == SumValues(takers[..n])
            && (run.failed <==> n < |takers|)
            && run.group.id == group.id
            && multiset(Addresses(run.group.members)) == multiset(Addresses(group.members))
            && Total(run.group.members) == Total(group.members)
            && forall a :: DebtOf(run.group.members, a)
                           == DebtOf(group.members, a) + CreditFor(takers[..n], a) - (if a == caller then run.paid else 0)
  {
    var credited := Credit(group, takers, transferOk, k, [], 0).value;
    CreditRun(group, takers, transferOk, k, [], 0);
    CreditBalances(group, takers, transferOk, k, [], 0);
    CreditTotal(group, takers, transferOk, k, [], 0);
    UpdateDebtEffect(credited.group.members, caller, false, credited.paid);
  }

  /** The caller's own `update_group_debt` panics when the caller is not a
      member of the group, whatever the transfers do. */
  lemma SettleGroupNeedsCaller(group: Group, caller: AccountId, takers: seq<DistributionByMemberInput>, transferOk: nat -> bool, k: nat)
    requires caller !in Addresses(group.members)
    ensures !SettleGroup(group, caller, takers, transferOk, k).Ok?
  {
    if Credit(group, takers, transferOk, k, [], 0).Ok? {
      var credited := Credit(group, takers, transferOk, k, [], 0).value;
      CreditBalances(group, takers, transferOk, k, [], 0);
      assert caller !in multiset(Addresses(credited.group.members));
      UpdateDebtNeedsMember(credited.group.members, caller, false, credited.paid);
    }
  }

  // ---------------------------------------------------------------------------
  // The whole call

  /** One group of the outer loop, when the whole call does not end in an
      error or a panic: the group found, what its takers' loop left, and how
      the call goes on from there. */
  lemma SettleNext(groups: map<nat, Group>, memberGroups: map<AccountId, seq<nat>>, caller: AccountId,
                   debts: seq<GroupDebtsToPay>, transferOk: nat -> bool, k: nat, acc: seq<GroupSettledDebts>)
    returns (group: Group, run: GroupRun)
    requires debts != []
    requires SettleFrom(groups, memberGroups, caller, debts, transferOk, k, acc).Ok?
    ensures CheckGroupMembership(groups, memberGroups, caller, debts[0].groupId) == Ok(group)
    ensures SettleGroup(group, caller, debts[0].takers, transferOk, k) == Ok(run)
    ensures run.failed ==> SettleFrom(groups, memberGroups, caller, debts, transferOk, k, acc)
                           == Ok(SettleUpResult(false, Some(acc + [GroupSettledDebts(group.id, run.settled)])))
    ensures !run.failed ==> SettleFrom(groups, memberGroups, caller, debts, transferOk, k, acc)
                            == SettleFrom(groups, memberGroups, caller, debts[1..], transferOk, k + |debts[0].takers|,
                                          acc + [GroupSettledDebts(group.id, run.settled)])
  {
    group := CheckGroupMembership(groups, memberGroups, caller, debts[0].groupId).value;
    run := SettleGroup(group, caller, debts[0].takers, transferOk, k).value;
  }

  /** A run of successes from `k` followed by a run from `k + m` is a run
      from `k`. */
  lemma SuccessesJoin(transferOk: nat -> bool, k: nat, m: nat, rest: nat)
    requires forall j :: k <= j < k + m ==> transferOk(j)
    ensures (forall j :: k + m <= j < k + m + rest ==> transferOk(j))
            <==> (forall j :: k <= j < k + m + rest ==> transferOk(j))
  {
  }

  /** A group whose `m` transfers from `k` all succeeded: the request's
      transfers succeed exactly when the later ones do. */
  lemma GroupSucceeded(transferOk: nat -> bool, k: nat, m: nat, rest: nat)
    requires LeadingSuccesses(transferOk, k, m) == m
    ensures (forall j :: k + m <= j < k + m + rest ==> transferOk(j))
            <==> (forall j :: k <= j < k + m + rest ==> transferOk(j))
  {
    LeadingSuccessesSpec(transferOk, k, m);
    SuccessesJoin(transferOk, k, m, rest);
  }

  /** A group whose transfers from `k` did not all succeed: some transfer of
      the request failed. */
  lemma GroupFailed(transferOk: nat -> bool, k: nat, m: nat, rest: nat)
    requires LeadingSuccesses(transferOk, k, m) < m
    ensures !(forall j :: k <= j < k + m + rest ==> transferOk(j))
  {
    LeadingSuccessesSpec(transferOk, k, m);
    assert !transferOk(k + LeadingSuccesses(transferOk, k, m));
  }

  lemma TransferCountCons(debts: seq<GroupDebtsToPay>)
    requires debts != []
    ensures TransferCount(debts) == |debts[0].takers| + TransferCount(debts[1..])
  {
  }

  /** `settle_up`, when it does not panic or fail the membership check,
      reports `result: true` exactly when every transfer it was asked for
      succeeded. */
  lemma {:induction false} SettleSucceedsIff(groups: map<nat, Group>, memberGroups: map<AccountId, seq<nat>>, caller: AccountId,
                                             debts: seq<GroupDebtsToPay>, transferOk: nat -> bool, k: nat, acc: seq<GroupSettledDebts>)
    requires SettleFrom(groups, memberGroups, caller, debts, transferOk, k, acc).Ok?
    ensures SettleFrom(groups, memberGroups, caller, debts, transferOk, k, acc).value.result
            <==> forall j :: k <= j < k + TransferCount(debts) ==> transferOk(j)
    decreases |debts|
  {
    if debts != [] {
      var group, run := SettleNext(groups, memberGroups, caller, debts, transferOk, k, acc);
      SettleGroupOutcome(group, caller, debts[0].takers, transferOk, k, run);
      TransferCountCons(debts);
      if !run.failed {
        SettleSucceedsIff(groups, memberGroups, caller, debts[1..], transferOk, k + |debts[0].takers|,
                          acc + [GroupSettledDebts(group.id, run.settled)]);
        GroupSucceeded(transferOk, k, |debts[0].takers|, TransferCount(debts[1..]));
      } else {
        GroupFailed(transferOk, k, |debts[0].takers|, TransferCount(debts[1..]));
      }
    }
  }

  /** `settle_up` returns settled lists exactly when it reports `result:
      false`. */
  lemma {:induction false} SettleListsIff(groups: map<nat, Group>, memberGroups: map<AccountId, seq<nat>>, caller: AccountId,
                                          debts: seq<GroupDebtsToPay>, transferOk: nat -> bool, k: nat, acc: seq<GroupSettledDebts>)
    requires SettleFrom(groups, memberGroups, caller, debts, transferOk, k, acc).Ok?
    ensures SettleFrom(groups, memberGroups, caller, debts, transferOk, k, acc).value.result
            <==> SettleFrom(groups, memberGroups, caller, debts, transferOk, k, acc).value.totalSettledDebts.None?
    decreases |debts|
  {
    if debts != [] {
      var group, run := SettleNext(groups, memberGroups, caller, debts, transferOk, k, acc);
      if !run.failed {
        SettleListsIff(groups, memberGroups, caller, debts[1..], transferOk, k + |debts[0].takers|,
                       acc + [GroupSettledDebts(group.id, run.settled)]);
      }
    }
  }

  /** The settled list a failed `settle_up` reports for the request entry
      `d`: the stored group's id, and the entry's takers in full, or, for the
      group whose transfer failed (`last`), a proper prefix of them. */
  ghost predicate ListEntry(groups: map<nat, Group>, d: GroupDebtsToPay, l: GroupSettledDebts, last: bool) {
    && d.groupId in groups
    && l.groupId == groups[d.groupId].id
    && if last then |l.takers| < |d.takers| && l.takers == TakerAddresses(d.takers)[..|l.takers|]
       else l.takers == TakerAddresses(d.takers)
  }

  /** `lists` holds one entry per request entry from the first, the last one
      being for the group whose transfer failed. */
  ghost predicate ListsFrom(groups: map<nat, Group>, debts: seq<GroupDebtsToPay>, lists: seq<GroupSettledDebts>)
    decreases |lists|
  {
    && lists != [] && debts != []
    && ListEntry(groups, debts[0], lists[0], |lists| == 1)
    && (|lists| > 1 ==> ListsFrom(groups, debts[1..], lists[1..]))
  }

  /** The same, entry by entry: there are at most as many lists as request
      entries, and list `j` belongs to request entry `j`. */
  lemma {:induction false} ListsFromIndexed(groups: map<nat, Group>, debts: seq<GroupDebtsToPay>, lists: seq<GroupSettledDebts>)
    requires ListsFrom(groups, debts, lists)
    ensures 0 < |lists| <= |debts|
    ensures forall j :: 0 <= j < |lists| ==> ListEntry(groups, debts[j], lists[j], j == |lists| - 1)
    decreases |lists|
  {
    if |lists| > 1 {
      ListsFromIndexed(groups, debts[1..], lists[1..]);
      forall j | 0 < j < |lists|
        ensures ListEntry(groups, debts[j], lists[j], j == |lists| - 1)
      {
        assert debts[j] == debts[1..][j - 1] && lists[j] == lists[1..][j - 1];
      }
    }
  }

  /** The list one group of a request contributes: the stored group's id and
      the addresses its loop paid. */
  lemma EntryOf(groups: map<nat, Group>, memberGroups: map<AccountId, seq<nat>>, caller: AccountId,
                d: GroupDebtsToPay, transferOk: nat -> bool, k: nat, group: Group, run: GroupRun)
    requires CheckGroupMembership(groups, memberGroups, caller, d.groupId) == Ok(group)
    requires SettleGroup(group, caller, d.takers, transferOk, k) == Ok(run)
    ensures ListEntry(groups, d, GroupSettledDebts(group.id, run.settled), run.failed)
  {
    SettleGroupOutcome(group, caller, d.takers, transferOk, k, run);
  }

  /** A full entry in front of the lists of the rest of the request. */
  lemma ListsExtend(groups: map<nat, Group>, debts: seq<GroupDebtsToPay>, acc: seq<GroupSettledDebts>,
                    entry: GroupSettledDebts, lists: seq<GroupSettledDebts>)
    requires debts != [] && ListEntry(groups, debts[0], entry, false)
    requires |acc| + 1 < |lists| && lists[..|acc| + 1] == acc + [entry]
    requires ListsFrom(groups, debts[1..], lists[|acc| + 1..])
    ensures |acc| < |lists| && lists[..|acc|] == acc
    ensures ListsFrom(groups, debts, lists[|acc|..])
  {
    assert lists[..|acc| + 1][..|acc|] == lists[..|acc|];
    assert lists[|acc|] == lists[..|acc| + 1][|acc|];
    assert lists[|acc|..][1..] == lists[|acc| + 1..];
  }

  /** A failed `settle_up` reports, after the lists it was given, the full
      list of every earlier group of the request (with the stored group's id)
      and the paid prefix of the group whose transfer failed. */
  lemma {:induction false} SettleFailureLists(groups: map<nat, Group>, memberGroups: map<AccountId, seq<nat>>, caller: AccountId,
                                              debts: seq<GroupDebtsToPay>, transferOk: nat -> bool, k: nat, acc: seq<GroupSettledDebts>)
    requires SettleFrom(groups, memberGroups, caller, debts, transferOk, k, acc).Ok?
    requires !SettleFrom(groups, memberGroups, caller, debts, transferOk, k, acc).value.result
    ensures SettleFrom(groups, memberGroups, caller, debts, transferOk, k, acc).value.totalSettledDebts.Some?
    ensures var lists := SettleFrom(groups, memberGroups, caller, debts, transferOk, k, acc).value.totalSettledDebts.value;
            && |acc| < |lists|
            && lists[..|acc|] == acc
            && ListsFrom(groups, debts, lists[|acc|..])
    decreases |debts|
  {
    var group, run := SettleNext(groups, memberGroups, caller, debts, transferOk, k, acc);
    var entry := GroupSettledDebts(group.id, run.settled);
    EntryOf(groups, memberGroups, caller, debts[0], transferOk, k, group, run);
    if run.failed {
      assert (acc + [entry])[|acc|..] == [entry];
    } else {
      var acc' := acc + [entry];
      SettleFailureLists(groups, memberGroups, caller, debts[1..], transferOk, k + |debts[0].takers|, acc');
      var lists := SettleFrom(groups, memberGroups, caller, debts[1..], transferOk, k + |debts[0].takers|, acc')
                   .value.totalSettledDebts.value;
      ListsExtend(groups, debts, acc, entry, lists);
    }
  }

  // ---------------------------------------------------------------------------
  // A concrete call

  /** Crediting taker 2 by 10 moves it, now at 0, to the end. */
  lemma ExampleCredit(members: seq<GroupMember>)
    requires members == [GroupMember(1, 35), GroupMember(2, -10), GroupMember(3, -20), GroupMember(4, -5)]
    ensures UpdateDebt(members, 2, true, 10)
            == Ok([GroupMember(1, 35), GroupMember(3, -20), GroupMember(4, -5), GroupMember(2, 0)])
  {
    FirstIndexAt(members, HasAddress(2), 1);
    assert RemoveAt(members, 1) == [GroupMember(1, 35), GroupMember(3, -20), GroupMember(4, -5)];
    assert MoveToEnd(members, 1, 0) == RemoveAt(members, 1) + [GroupMember(2, 0)]
           == [GroupMember(1, 35), GroupMember(3, -20), GroupMember(4, -5), GroupMember(2, 0)];
    assert InI128(members[1].debtValue + 10);
    assert UpdateDebt(members, 2, true, 10) == Ok(MoveToEnd(members, 1, 0));
  }

  /** Debiting the caller 1 by 10 moves it, now at 25, to the end. */
  lemma ExampleDebit(members: seq<GroupMember>)
    requires members == [GroupMember(1, 35), GroupMember(3, -20), GroupMember(4, -5), GroupMember(2, 0)]
    ensures UpdateDebt(members, 1, false, 10)
            == Ok([GroupMember(3, -20), GroupMember(4, -5), GroupMember(2, 0), GroupMember(1, 25)])
  {
    FirstIndexAt(members, HasAddress(1), 0);
    assert RemoveAt(members, 0) == [GroupMember(3, -20), GroupMember(4, -5), GroupMember(2, 0)];
    assert MoveToEnd(members, 0, 25) == RemoveAt(members, 0) + [GroupMember(1, 25)]
           == [GroupMember(3, -20), GroupMember(4, -5), GroupMember(2, 0), GroupMember(1, 25)];
    assert InI128(members[0].debtValue - 10);
    assert UpdateDebt(members, 1, false, 10) == Ok(MoveToEnd(members, 0, 25));
  }

  /** Caller 1 owes 35 in group 7 and pays takers 2, 3 and 4; the first
      transfer succeeds and the second fails. Taker 2 is credited, the caller
      is debited by the 10 paid, and taker 3 and 4 are not touched. */
  lemma ExampleGroup(group: Group, takers: seq<DistributionByMemberInput>, transferOk: nat -> bool)
    requires group == Group(7, [GroupMember(1, 35), GroupMember(2, -10), GroupMember(3, -20), GroupMember(4, -5)], 1)
    requires takers == [DistributionByMemberInput(2, 10), DistributionByMemberInput(3, 20), DistributionByMemberInput(4, 5)]
    requires transferOk(0) && !transferOk(1)
    ensures SettleGroup(group, 1, takers, transferOk, 0)
            == Ok(GroupRun(Group(7, [GroupMember(3, -20), GroupMember(4, -5), GroupMember(2, 0), GroupMember(1, 25)], 1),
                           [2], 10, true))
  {
    ExampleCredit(group.members);
    var credited := [GroupMember(1, 35), GroupMember(3, -20), GroupMember(4, -5), GroupMember(2, 0)];
    CreditStep(group, takers, transferOk, 0, [], 0, credited);
    assert takers[1..] != [] && [] + [takers[0].memberAddress] == [2];
    assert Credit(group.(members := credited), takers[1..], transferOk, 1, [2], 10)
           == Ok(GroupRun(group.(members := credited), [2], 10, true));
    assert Credit(group, takers, transferOk, 0, [], 0) == Ok(GroupRun(group.(members := credited), [2], 10, true));
    ExampleDebit(credited);
  }

  /** The same call through `settle_up`: the caller is a member of group 7, so
      the call reports `result: false` and the one taker it settled. */
  lemma ExampleSettle(groups: map<nat, Group>, memberGroups: map<AccountId, seq<nat>>,
                      debts: seq<GroupDebtsToPay>, transferOk: nat -> bool)
    requires groups == map[7 := Group(7, [GroupMember(1, 35), GroupMember(2, -10), GroupMember(3, -20), GroupMember(4, -5)], 1)]
    requires memberGroups == map[1 := [7], 2 := [7], 3 := [7], 4 := [7]]
    requires debts == [GroupDebtsToPay(7, [DistributionByMemberInput(2, 10), DistributionByMemberInput(3, 20), DistributionByMemberInput(4, 5)])]
    requires transferOk(0) && !transferOk(1)
    ensures Settle(groups, memberGroups, 1, debts, transferOk)
            == Ok(SettleUpResult(false, Some([GroupSettledDebts(7, [2])])))
  {
    assert 7 in groups && 1 in memberGroups && 7 in memberGroups[1];
    assert CheckGroupMembership(groups, memberGroups, 1, debts[0].groupId) == Ok(groups[7]);
    ExampleGroup(groups[7], debts[0].takers, transferOk);
    assert groups[7].id == 7;
    assert [] + [GroupSettledDebts(7, [2])] == [GroupSettledDebts(7, [2])];
  }
}
