/** The settlement planner of `get_group_distribution`: givers in member order,
    takers sorted by balance, and for each giver repeated `process_giver_debt`
    steps against one shared pool of takers. */
module Distribution {
  import opened Types
  import opened Vectors
  import opened Utils

  type Transfer = GroupMemberDistributionTransfer

  // ---------------------------------------------------------------------------
  // Givers and takers

  /** The members owed money (`debt_value > 0`), in member order. */
  function Givers(ms: seq<GroupMember>): (r: seq<GroupMember>)
    ensures forall i :: 0 <= i < |r| ==> r[i].debtValue > 0
  {
    if ms == [] then [] else (if ms[0].debtValue > 0 then [ms[0]] else []) + Givers(ms[1..])
  }

  /** `Givers` keeps every member with the right sign, as often as it occurs,
      and no other. */
  lemma {:induction false} GiversCount(ms: seq<GroupMember>)
    ensures forall m :: multiset(Givers(ms))[m] == if m.debtValue > 0 then multiset(ms)[m] else 0
  {
    if ms != [] {
      GiversCount(ms[1..]);
      assert ms == [ms[0]] + ms[1..];
    }
  }

  /** The members who owe money (`debt_value < 0`), in member order. */
  function Takers(ms: seq<GroupMember>): (r: seq<GroupMember>)
    ensures forall i :: 0 <= i < |r| ==> r[i].debtValue < 0
  {
    if ms == [] then [] else (if ms[0].debtValue < 0 then [ms[0]] else []) + Takers(ms[1..])
  }

  /** `Takers` keeps every member with the right sign, as often as it occurs,
      and no other. */
  lemma {:induction false} TakersCount(ms: seq<GroupMember>)
    ensures forall m :: multiset(Takers(ms))[m] == if m.debtValue < 0 then multiset(ms)[m] else 0
  {
    if ms != [] {
      TakersCount(ms[1..]);
      assert ms == [ms[0]] + ms[1..];
    }
  }

  predicate AllNegative(ts: seq<GroupMember>) {
    forall i :: 0 <= i < |ts| ==> ts[i].debtValue < 0
  }

  // ---------------------------------------------------------------------------
  // `sort_by(|a, b| a.debt_value.cmp(&b.debt_value))`

  predicate SortedByDebt(s: seq<GroupMember>) {
    forall i, j :: 0 <= i < j < |s| ==> s[i].debtValue <= s[j].debtValue
  }

  /** `x` placed before the first element whose balance is not smaller. */
  function Insert(x: GroupMember, t: seq<GroupMember>): (r: seq<GroupMember>)
    ensures |r| == |t| + 1
  {
    if t == [] || x.debtValue <= t[0].debtValue then [x] + t else [t[0]] + Insert(x, t[1..])
  }

  /** Inserting adds `x` and loses nothing. */
  lemma {:induction false} InsertMultiset(x: GroupMember, t: seq<GroupMember>)
    ensures multiset(Insert(x, t)) == multiset{x} + multiset(t)
  {
    if t != [] && x.debtValue > t[0].debtValue {
      InsertMultiset(x, t[1..]);
      assert t == [t[0]] + t[1..];
    }
  }

  /** Every balance of `s` is at least `b`. */
  predicate AtLeast(s: seq<GroupMember>, b: int) {
    forall i :: 0 <= i < |s| ==> b <= s[i].debtValue
  }

  /** Inserting a member above a lower bound keeps the bound. */
  lemma {:induction false} InsertAtLeast(x: GroupMember, t: seq<GroupMember>, b: int)
    requires b <= x.debtValue && AtLeast(t, b)
    ensures AtLeast(Insert(x, t), b)
  {
    if t != [] && x.debtValue > t[0].debtValue {
      InsertAtLeast(x, t[1..], b);
      var r := Insert(x, t[1..]);
      assert Insert(x, t) == [t[0]] + r;
      assert forall i :: 1 <= i < |r| + 1 ==> ([t[0]] + r)[i] == r[i - 1];
    }
  }

  lemma {:induction false} InsertSorted(x: GroupMember, t: seq<GroupMember>)
    requires SortedByDebt(t)
    ensures SortedByDebt(Insert(x, t))
    ensures Insert(x, t) != [] && (Insert(x, t)[0] == x || (t != [] && Insert(x, t)[0] == t[0]))
  {
    if t != [] && x.debtValue > t[0].debtValue {
      InsertSorted(x, t[1..]);
      assert AtLeast(t[1..], t[0].debtValue);
      InsertAtLeast(x, t[1..], t[0].debtValue);
      var r := Insert(x, t[1..]);
      assert Insert(x, t) == [t[0]] + r;
      assert forall i :: 1 <= i < |r| + 1 ==> ([t[0]] + r)[i] == r[i - 1];
    }
  }

  /** The stable sort of the takers: ascending balance, ties in input order. */
  function SortByDebt(s: seq<GroupMember>): (r: seq<GroupMember>)
    ensures |r| == |s|
  {
    if s == [] then [] else Insert(s[0], SortByDebt(s[1..]))
  }

  /** The elements with balance `k`, in order. */
  function WithDebt(s: seq<GroupMember>, k: int): seq<GroupMember> {
    if s == [] then [] else (if s[0].debtValue == k then [s[0]] else []) + WithDebt(s[1..], k)
  }

  lemma WithDebtCons(y: GroupMember, s: seq<GroupMember>, k: int)
    ensures WithDebt([y] + s, k) == (if y.debtValue == k then [y] else []) + WithDebt(s, k)
  {
    assert ([y] + s)[1..] == s;
  }

  lemma {:induction false} InsertWithDebt(x: GroupMember, t: seq<GroupMember>, k: int)
    ensures WithDebt(Insert(x, t), k) == (if x.debtValue == k then [x] else []) + WithDebt(t, k)
  {
    if t == [] || x.debtValue <= t[0].debtValue {
      WithDebtCons(x, t, k);
    } else {
      InsertWithDebt(x, t[1..], k);
      var r := Insert(x, t[1..]);
      assert Insert(x, t) == [t[0]] + r;
      WithDebtCons(t[0], r, k);
      WithDebtCons(t[0], t[1..], k);
      assert t == [t[0]] + t[1..];
    }
  }

  /** The sort orders by balance, keeps the same members, and is stable: for
      every balance the members with that balance keep their relative order. */
  lemma {:induction false} SortByDebtCorrect(s: seq<GroupMember>)
    ensures SortedByDebt(SortByDebt(s))
    ensures multiset(SortByDebt(s)) == multiset(s)
    ensures forall k :: WithDebt(SortByDebt(s), k) == WithDebt(s, k)
  {
    if s != [] {
      SortByDebtCorrect(s[1..]);
      InsertSorted(s[0], SortByDebt(s[1..]));
      InsertMultiset(s[0], SortByDebt(s[1..]));
      assert s == [s[0]] + s[1..];
      forall k ensures WithDebt(SortByDebt(s), k) == WithDebt(s, k) {
        InsertWithDebt(s[0], SortByDebt(s[1..]), k);
      }
    }
  }

  // ---------------------------------------------------------------------------
  // The plan

  /** The sum of the values of some transfers. */
  function Paid(ts: seq<Transfer>): int {
    if ts == [] then 0 else ts[0].value + Paid(ts[1..])
  }

  /** The accounts some transfers pay, in order. */
  function Payees(ts: seq<Transfer>): (r: seq<AccountId>)
    ensures |r| == |ts|
    ensures forall i :: 0 <= i < |ts| ==> r[i] == ts[i].memberAccount
  {
    seq(|ts|, i requires 0 <= i < |ts| => ts[i].memberAccount)
  }

  lemma {:induction false} PaidAppend(ts: seq<Transfer>, t: Transfer)
    ensures Paid(ts + [t]) == Paid(ts) + t.value
  {
    if ts != [] {
      assert (ts + [t])[1..] == ts[1..] + [t];
      PaidAppend(ts[1..], t);
    } else {
      assert [t][1..] == [];
    }
  }

  /** The `while pending_debt > 0` loop for one giver: steps until the pending
      amount is paid, `acc` holding the transfers emitted so far; the final
      transfers and the takers left, or a panic once the pool is empty. */
  function Drain(pending: nat, takers: seq<GroupMember>, acc: seq<Transfer>): Result<(seq<Transfer>, seq<GroupMember>)>
    decreases |takers|
  {
    if pending == 0 then Ok((acc, takers))
    else match GiverStep(pending, takers)
      case Ok((t, rest)) => Drain(pending - t.value, rest, acc + [t])
      case Err(e) => Err(e)
      case Panic => Panic
  }

  predicate AllGivers(gs: seq<GroupMember>) {
    forall i :: 0 <= i < |gs| ==> gs[i].debtValue > 0
  }

  /** The `for giver in givers` loop: one entry per giver, each drained
      against what the earlier givers left of the pool. */
  function Plan(givers: seq<GroupMember>, takers: seq<GroupMember>, acc: seq<GroupMemberDistribution>)
    : Result<seq<GroupMemberDistribution>>
    requires AllGivers(givers)
    decreases |givers|
  {
    if givers == [] then Ok(acc)
    else
      var g := givers[0];
      match Drain(g.debtValue, takers, [])
      case Ok((ts, left)) =>
        Plan(givers[1..], left, acc + [GroupMemberDistribution(g.memberAddress, g.debtValue, ts)])
      case Err(e) => Err(e)
      case Panic => Panic
  }

  /** One step of the pending loop that found a taker. */
  lemma DrainOkStep(pending: nat, takers: seq<GroupMember>, acc: seq<Transfer>, t: Transfer, rest: seq<GroupMember>)
    requires pending > 0 && GiverStep(pending, takers) == Ok((t, rest))
    ensures t.value <= pending
    ensures Drain(pending, takers, acc) == Drain(pending - t.value, rest, acc + [t])
  {
  }

  /** One step of the pending loop on an empty pool. */
  lemma DrainPanicStep(pending: nat, takers: seq<GroupMember>, acc: seq<Transfer>)
    requires pending > 0 && GiverStep(pending, takers).Panic?
    ensures Drain(pending, takers, acc) == Panic
  {
  }

  /** One giver whose pending loop finished. */
  lemma PlanOkStep(givers: seq<GroupMember>, takers: seq<GroupMember>, acc: seq<GroupMemberDistribution>,
                   ts: seq<Transfer>, left: seq<GroupMember>)
    requires AllGivers(givers) && givers != []
    requires Drain(givers[0].debtValue, takers, []) == Ok((ts, left))
    ensures Plan(givers, takers, acc)
            == Plan(givers[1..], left, acc + [GroupMemberDistribution(givers[0].memberAddress, givers[0].debtValue, ts)])
  {
  }

  /** One giver whose pending loop panicked. */
  lemma PlanPanicStep(givers: seq<GroupMember>, takers: seq<GroupMember>, acc: seq<GroupMemberDistribution>)
    requires AllGivers(givers) && givers != []
    requires Drain(givers[0].debtValue, takers, []).Panic?
    ensures Plan(givers, takers, acc) == Panic
  {
  }

  /** What `get_group_distribution` computes from a group's members. */
  function GroupDistribution(members: seq<GroupMember>): Result<seq<GroupMemberDistribution>> {
    var givers := Givers(members);
    if givers == [] then Ok([]) else Plan(givers, SortByDebt(Takers(members)), [])
  }

  /** The `while pending_debt > 0` loop of one giver: the transfers it emits
      and the takers it leaves, or the panic of an empty pool. */
  method DrainGiver(debtValue: nat, takers: seq<GroupMember>) returns (r: Result<(seq<Transfer>, seq<GroupMember>)>)
    ensures r == Drain(debtValue, takers, [])
    ensures !r.Err?
  {
    ghost var outcome := Drain(debtValue, takers, []);
    var pool := takers;
    var transfers: seq<Transfer> := [];
    var pendingDebt: nat := debtValue;
    while pendingDebt > 0
      invariant outcome == Drain(pendingDebt, pool, transfers)
      decreases |pool|
    {
      var transfer, rest := ProcessGiverDebt(pendingDebt, pool);
      if transfer.Panic? {
        DrainPanicStep(pendingDebt, pool, transfers);
        return Panic;
      }
      DrainOkStep(pendingDebt, pool, transfers, transfer.value, rest);
      transfers := transfers + [transfer.value];
      pendingDebt := pendingDebt - transfer.value.value;
      pool := rest;
    }
    return Ok((transfers, pool));
  }

  /** The loops of `get_group_distribution` once the group is read. */
  method DistributeGroup(members: seq<GroupMember>) returns (r: Result<seq<GroupMemberDistribution>>)
    ensures r == GroupDistribution(members)
  {
    var distribution: seq<GroupMemberDistribution> := [];
    var givers := Givers(members);
    if |givers| == 0 {
      return Ok(distribution);
    }
    var takers := SortByDebt(Takers(members));
    ghost var outcome := Plan(givers, takers, []);
    var remaining := givers;
    while remaining != []
      invariant AllGivers(remaining)
      invariant outcome == Plan(remaining, takers, distribution)
      decreases |remaining|
    {
      var giver := remaining[0];
      var drained := DrainGiver(giver.debtValue, takers);
      if !drained.Ok? {
        PlanPanicStep(remaining, takers, distribution);
        return Panic;
      }
      PlanOkStep(remaining, takers, distribution, drained.value.0, drained.value.1);
      distribution := distribution + [GroupMemberDistribution(giver.memberAddress, giver.debtValue, drained.value.0)];
      takers := drained.value.1;
      remaining := remaining[1..];
    }
    return Ok(distribution);
  }

  // ---------------------------------------------------------------------------
  // Properties of the plan

  /** A loop that does not panic on a positive pending amount took a step. */
  lemma DrainUnfold(pending: nat, takers: seq<GroupMember>, acc: seq<Transfer>)
    requires pending > 0 && Drain(pending, takers, acc).Ok?
    ensures GiverStep(pending, takers).Ok?
    ensures var step := GiverStep(pending, takers).value;
            Drain(pending, takers, acc) == Drain(pending - step.0.value, step.1, acc + [step.0])
  {
  }

  /** One step of the giver's loop: the account paid plus the takers left are
      the takers before the step. */
  lemma StepPool(pending: nat, takers: seq<GroupMember>)
    requires GiverStep(pending, takers).Ok?
    ensures multiset(Addresses(takers))
            == multiset(Addresses(GiverStep(pending, takers).value.1)) + multiset{GiverStep(pending, takers).value.0.memberAccount}
  {
    var step := GiverStep(pending, takers).value;
    var t, rest := step.0, step.1;
    GiverStepPool(pending, takers);
    var i :| 0 <= i < |takers| && rest == RemoveAt(takers, i) && t.memberAccount == takers[i].memberAddress;
    var a := Addresses(takers);
    RemoveAtElements(takers, i);
    RemoveAtElements(a, i);
    assert Addresses(rest) == RemoveAt(a, i);
    RemoveAtMultiset(a, i);
  }

  /** One step of the giver's loop for a positive pending amount, over takers
      who all owe money: the payment is positive and the takers left still owe
      money. */
  lemma StepNegative(pending: nat, takers: seq<GroupMember>)
    requires pending > 0 && GiverStep(pending, takers).Ok? && AllNegative(takers)
    ensures GiverStep(pending, takers).value.0.value > 0
    ensures AllNegative(GiverStep(pending, takers).value.1)
  {
    var step := GiverStep(pending, takers).value;
    var t, rest := step.0, step.1;
    GiverStepPool(pending, takers);
    var i :| 0 <= i < |takers| && rest == RemoveAt(takers, i) && t.memberAccount == takers[i].memberAddress
             && t.value == (if Magnitude(takers[i]) < pending then Magnitude(takers[i]) else pending);
    assert takers[i].debtValue < 0;
  }

  /** One giver's loop, when it does not panic: it only appends to the
      transfers, and the new transfers add up to the pending amount. */
  lemma {:induction false} DrainPaid(pending: nat, takers: seq<GroupMember>, acc: seq<Transfer>)
    requires Drain(pending, takers, acc).Ok?
    ensures |acc| <= |Drain(pending, takers, acc).value.0|
    ensures Drain(pending, takers, acc).value.0[..|acc|] == acc
    ensures Paid(Drain(pending, takers, acc).value.0) == Paid(acc) + pending
    decreases |takers|
  {
    if pending != 0 {
      DrainUnfold(pending, takers, acc);
      var step := GiverStep(pending, takers).value;
      var t, rest := step.0, step.1;
      var ts := Drain(pending - t.value, rest, acc + [t]).value.0;
      DrainPaid(pending - t.value, rest, acc + [t]);
      PaidAppend(acc, t);
      assert ts[..|acc|] == (ts[..|acc| + 1])[..|acc|];
    }
  }

  lemma PayeesAppend(ts: seq<Transfer>, t: Transfer)
    ensures multiset(Payees(ts + [t])) == multiset(Payees(ts)) + multiset{t.memberAccount}
  {
    assert Payees(ts + [t]) == Payees(ts) + [t.memberAccount];
  }

  /** One giver's loop, when it does not panic: the accounts paid plus the
      takers left are the takers it started with. */
  lemma {:induction false} DrainPool(pending: nat, takers: seq<GroupMember>, acc: seq<Transfer>)
    requires Drain(pending, takers, acc).Ok?
    ensures multiset(Payees(Drain(pending, takers, acc).value.0)) + multiset(Addresses(Drain(pending, takers, acc).value.1))
            == multiset(Payees(acc)) + multiset(Addresses(takers))
    decreases |takers|
  {
    if pending != 0 {
      DrainUnfold(pending, takers, acc);
      var step := GiverStep(pending, takers).value;
      var t, rest := step.0, step.1;
      var final := Drain(pending - t.value, rest, acc + [t]).value;
      assert Drain(pending, takers, acc).value == final;
      StepPool(pending, takers);
      DrainPool(pending - t.value, rest, acc + [t]);
      PayeesAppend(acc, t);
      var paid, left := multiset(Payees(final.0)), multiset(Addresses(final.1));
      var before, pool := multiset(Payees(acc)), multiset(Addresses(takers));
      assert paid + left == multiset(Payees(acc + [t])) + multiset(Addresses(rest));
      assert pool == multiset(Addresses(rest)) + multiset{t.memberAccount};
      assert paid + left == before + pool;
    }
  }

  predicate AllPositive(ts: seq<Transfer>) {
    forall j :: 0 <= j < |ts| ==> ts[j].value > 0
  }

  /** One giver's loop over takers who all owe money, when it does not panic:
      the takers left still owe money. */
  lemma {:induction false} DrainLeftNegative(pending: nat, takers: seq<GroupMember>, acc: seq<Transfer>)
    requires Drain(pending, takers, acc).Ok? && AllNegative(takers)
    ensures AllNegative(Drain(pending, takers, acc).value.1)
    decreases |takers|
  {
    if pending != 0 {
      DrainUnfold(pending, takers, acc);
      var step := GiverStep(pending, takers).value;
      var t, rest := step.0, step.1;
      StepNegative(pending, takers);
      DrainLeftNegative(pending - t.value, rest, acc + [t]);
    }
  }

  /** One giver's loop over takers who all owe money, when it does not panic:
      every transfer it adds is positive. */
  lemma {:induction false} DrainPositive(pending: nat, takers: seq<GroupMember>, acc: seq<Transfer>)
    requires Drain(pending, takers, acc).Ok? && AllNegative(takers) && AllPositive(acc)
    ensures AllPositive(Drain(pending, takers, acc).value.0)
    decreases |takers|
  {
    if pending != 0 {
      DrainUnfold(pending, takers, acc);
      var step := GiverStep(pending, takers).value;
      var t, rest := step.0, step.1;
      assert Drain(pending, takers, acc).value.0 == Drain(pending - t.value, rest, acc + [t]).value.0;
      StepNegative(pending, takers);
      assert AllPositive(acc + [t]);
      DrainPositive(pending - t.value, rest, acc + [t]);
    }
  }

  /** The accounts paid by a list of entries, entry by entry. */
  function AllPayees(ds: seq<GroupMemberDistribution>): seq<AccountId> {
    if ds == [] then [] else Payees(ds[0].transfers) + AllPayees(ds[1..])
  }

  lemma {:induction false} AllPayeesAppend(ds: seq<GroupMemberDistribution>, d: GroupMemberDistribution)
    ensures AllPayees(ds + [d]) == AllPayees(ds) + Payees(d.transfers)
  {
    if ds != [] {
      assert (ds + [d])[1..] == ds[1..] + [d];
      AllPayeesAppend(ds[1..], d);
    } else {
      assert [d][1..] == [];
    }
  }

  /** An entry whose transfers pay exactly its total, each one positive. */
  predicate Balanced(d: GroupMemberDistribution) {
    Paid(d.transfers) == d.totalDebt && AllPositive(d.transfers)
  }

  /** The entry of the plan for giver `g`: its address and balance, paid
      exactly by positive transfers. */
  predicate EntryFor(d: GroupMemberDistribution, g: GroupMember) {
    d.memberAccount == g.memberAddress && d.totalDebt == g.debtValue && Balanced(d)
  }

  /** The givers' loop, when it does not panic, only appends one entry per
      giver to what it was given. */
  lemma {:induction false} PlanPrefix(givers: seq<GroupMember>, takers: seq<GroupMember>, acc: seq<GroupMemberDistribution>)
    requires AllGivers(givers)
    requires Plan(givers, takers, acc).Ok?
    ensures |Plan(givers, takers, acc).value| == |acc| + |givers|
    ensures Plan(givers, takers, acc).value[..|acc|] == acc
    decreases |givers|
  {
    if givers != [] {
      var g := givers[0];
      var drained := Drain(g.debtValue, takers, []).value;
      var ts, left := drained.0, drained.1;
      var acc' := acc + [GroupMemberDistribution(g.memberAddress, g.debtValue, ts)];
      assert AllGivers(givers[1..]);
      PlanOkStep(givers, takers, acc, ts, left);
      PlanPrefix(givers[1..], left, acc');
      var ds := Plan(givers, takers, acc).value;
      assert ds[..|acc|] == ds[..|acc'|][..|acc|];
    }
  }

  /** One giver drained against takers who all owe money, when it does not
      panic: its entry is paid exactly, by positive transfers, and the takers
      left still owe money. */
  lemma DrainEntry(g: GroupMember, takers: seq<GroupMember>)
    requires g.debtValue > 0 && AllNegative(takers)
    requires Drain(g.debtValue, takers, []).Ok?
    ensures EntryFor(GroupMemberDistribution(g.memberAddress, g.debtValue, Drain(g.debtValue, takers, []).value.0), g)
    ensures AllNegative(Drain(g.debtValue, takers, []).value.1)
  {
    DrainPaid(g.debtValue, takers, []);
    DrainLeftNegative(g.debtValue, takers, []);
    DrainPositive(g.debtValue, takers, []);
  }

  /** The givers' loop over takers who all owe money, when it does not panic:
      the entry it adds for each giver, in giver order, carries the giver's
      address and balance and is paid exactly, by positive transfers. */
  lemma {:induction false} PlanEntries(givers: seq<GroupMember>, takers: seq<GroupMember>, acc: seq<GroupMemberDistribution>)
    requires AllGivers(givers) && AllNegative(takers)
    requires Plan(givers, takers, acc).Ok?
    ensures |Plan(givers, takers, acc).value| == |acc| + |givers|
    ensures forall i :: 0 <= i < |givers| ==> EntryFor(Plan(givers, takers, acc).value[|acc| + i], givers[i])
    decreases |givers|
  {
    PlanPrefix(givers, takers, acc);
    if givers != [] {
      var g := givers[0];
      var drained := Drain(g.debtValue, takers, []).value;
      var ts, left := drained.0, drained.1;
      DrainEntry(g, takers);
      var d := GroupMemberDistribution(g.memberAddress, g.debtValue, ts);
      var acc' := acc + [d];
      assert AllGivers(givers[1..]);
      PlanOkStep(givers, takers, acc, ts, left);
      var ds := Plan(givers, takers, acc).value;
      PlanEntries(givers[1..], left, acc');
      PlanPrefix(givers[1..], left, acc');
      assert ds[|acc|] == ds[..|acc'|][|acc|] == d;
      forall i | 0 <= i < |givers|
        ensures EntryFor(ds[|acc| + i], givers[i])
      {
        if i > 0 {
          var j := i - 1;
          assert 0 <= j < |givers[1..]|;
          assert EntryFor(ds[|acc'| + j], givers[1..][j]);
          assert givers[i] == givers[1..][j];
          assert |acc| + i == |acc'| + j;
        }
      }
    }
  }

  /** The givers' loop, when it does not panic: the accounts paid over all
      entries come from the shared pool, each pool entry paid at most once. */
  lemma {:induction false} PlanPool(givers: seq<GroupMember>, takers: seq<GroupMember>, acc: seq<GroupMemberDistribution>)
    requires AllGivers(givers)
    requires Plan(givers, takers, acc).Ok?
    ensures multiset(AllPayees(Plan(givers, takers, acc).value)) <= multiset(AllPayees(acc)) + multiset(Addresses(takers))
    decreases |givers|
  {
    if givers != [] {
      var g := givers[0];
      var drained := Drain(g.debtValue, takers, []).value;
      var ts, left := drained.0, drained.1;
      DrainPool(g.debtValue, takers, []);
      assert multiset(Payees([])) == multiset{};
      var d := GroupMemberDistribution(g.memberAddress, g.debtValue, ts);
      var acc' := acc + [d];
      assert AllGivers(givers[1..]);
      PlanOkStep(givers, takers, acc, ts, left);
      PlanPool(givers[1..], left, acc');
      AllPayeesAppend(acc, d);
      assert multiset(AllPayees(acc')) == multiset(AllPayees(acc)) + multiset(Payees(ts));
      assert multiset(Payees(ts)) + multiset(Addresses(left)) == multiset(Addresses(takers));
    }
  }

  /** With no member owed money the plan is empty, and only then. */
  lemma NoGiversNoPlan(members: seq<GroupMember>)
    ensures GroupDistribution(members) == Ok([]) <==> forall i :: 0 <= i < |members| ==> members[i].debtValue <= 0
  {
    var givers := Givers(members);
    GiversCount(members);
    if givers == [] {
      forall i | 0 <= i < |members| ensures members[i].debtValue <= 0 {
        assert members[i] in multiset(members);
      }
    } else {
      assert givers[0] in multiset(givers);
      var k :| 0 <= k < |members| && members[k] == givers[0];
      var takers := SortByDebt(Takers(members));
      if Plan(givers, takers, []).Ok? {
        PlanPrefix(givers, takers, []);
      }
    }
  }

  lemma NegativeSorted(s: seq<GroupMember>)
    requires AllNegative(s)
    ensures AllNegative(SortByDebt(s))
  {
    var r := SortByDebt(s);
    SortByDebtCorrect(s);
    forall i | 0 <= i < |r| ensures r[i].debtValue < 0 {
      assert r[i] in multiset(r);
      assert r[i] in multiset(s);
    }
  }

  /** `get_group_distribution`, when it does not panic: one entry per giver
      (`debt_value > 0`), in member order, with `total_debt` its balance, and
      each entry's transfers positive and adding up to `total_debt`. */
  lemma GroupDistributionEntries(members: seq<GroupMember>)
    requires GroupDistribution(members).Ok?
    ensures |GroupDistribution(members).value| == |Givers(members)|
    ensures forall i :: 0 <= i < |Givers(members)| ==>
              GroupDistribution(members).value[i].totalDebt > 0
              && EntryFor(GroupDistribution(members).value[i], Givers(members)[i])
  {
    var givers := Givers(members);
    if givers != [] {
      var takers := SortByDebt(Takers(members));
      assert GroupDistribution(members) == Plan(givers, takers, []);
      NegativeSorted(Takers(members));
      PlanPrefix(givers, takers, []);
      forall i | 0 <= i < |givers|
        ensures Plan(givers, takers, []).value[i].totalDebt > 0 && EntryFor(Plan(givers, takers, []).value[i], givers[i])
      {
        PlanEntryAt(givers, takers, i);
      }
    }
  }

  lemma PlanEntryAt(givers: seq<GroupMember>, takers: seq<GroupMember>, i: nat)
    requires AllGivers(givers) && AllNegative(takers) && Plan(givers, takers, []).Ok? && i < |givers|
    ensures |Plan(givers, takers, []).value| == |givers|
    ensures EntryFor(Plan(givers, takers, []).value[i], givers[i])
  {
    PlanEntries(givers, takers, []);
    var none: seq<GroupMemberDistribution> := [];
    assert |none| + i == i;
  }

  /** `get_group_distribution`, when it does not panic: every account paid is
      the address of a member who owes money (`debt_value < 0`), and no taker
      is paid more often than it occurs among them; so a member with a zero
      balance is never paid. */
  lemma GroupDistributionPool(members: seq<GroupMember>)
    requires GroupDistribution(members).Ok?
    ensures multiset(AllPayees(GroupDistribution(members).value)) <= multiset(Addresses(Takers(members)))
  {
    var givers := Givers(members);
    if givers != [] {
      var takers := SortByDebt(Takers(members));
      PlanPool(givers, takers, []);
      assert AllPayees([]) == [];
      AddressesSorted(Takers(members));
    }
  }

  lemma AddressesCons(x: GroupMember, t: seq<GroupMember>)
    ensures multiset(Addresses([x] + t)) == multiset{x.memberAddress} + multiset(Addresses(t))
  {
    assert Addresses([x] + t) == [x.memberAddress] + Addresses(t);
  }

  lemma {:induction false} AddressesInsert(x: GroupMember, t: seq<GroupMember>)
    ensures multiset(Addresses(Insert(x, t))) == multiset{x.memberAddress} + multiset(Addresses(t))
  {
    if t == [] || x.debtValue <= t[0].debtValue {
      AddressesCons(x, t);
    } else {
      AddressesInsert(x, t[1..]);
      AddressesCons(t[0], Insert(x, t[1..]));
      AddressesCons(t[0], t[1..]);
      assert [t[0]] + t[1..] == t;
    }
  }

  /** Sorting keeps the takers' addresses. */
  lemma {:induction false} AddressesSorted(s: seq<GroupMember>)
    ensures multiset(Addresses(SortByDebt(s))) == multiset(Addresses(s))
  {
    if s != [] {
      AddressesSorted(s[1..]);
      AddressesInsert(s[0], SortByDebt(s[1..]));
      AddressesCons(s[0], s[1..]);
      assert [s[0]] + s[1..] == s;
    }
  }

  /** A member who is paid in the plan is a member who owes money. */
  lemma PayeesOweMoney(members: seq<GroupMember>, a: AccountId)
    requires GroupDistribution(members).Ok?
    requires a in AllPayees(GroupDistribution(members).value)
    ensures exists i :: 0 <= i < |members| && members[i].memberAddress == a && members[i].debtValue < 0
  {
    GroupDistributionPool(members);
    var ts := Takers(members);
    TakersCount(members);
    assert a in multiset(Addresses(ts));
    var j :| 0 <= j < |ts| && Addresses(ts)[j] == a;
    assert ts[j] in multiset(ts);
    assert multiset(ts)[ts[j]] == multiset(members)[ts[j]];
    assert ts[j] in multiset(members);
    var i :| 0 <= i < |members| && members[i] == ts[j];
  }

  // ---------------------------------------------------------------------------
  // Concrete plans

  lemma GiversCons(m: GroupMember, s: seq<GroupMember>)
    ensures Givers([m] + s) == (if m.debtValue > 0 then [m] else []) + Givers(s)
  {
    assert ([m] + s)[1..] == s;
  }

  lemma TakersCons(m: GroupMember, s: seq<GroupMember>)
    ensures Takers([m] + s) == (if m.debtValue < 0 then [m] else []) + Takers(s)
  {
    assert ([m] + s)[1..] == s;
  }

  lemma SortCons(m: GroupMember, s: seq<GroupMember>)
    ensures SortByDebt([m] + s) == Insert(m, SortByDebt(s))
  {
    assert ([m] + s)[1..] == s;
  }

  lemma InsertPast(x: GroupMember, y: GroupMember, t: seq<GroupMember>)
    requires x.debtValue > y.debtValue
    ensures Insert(x, [y] + t) == [y] + Insert(x, t)
  {
    assert ([y] + t)[1..] == t;
  }

  /** The six members of the worked example: one giver and five takers. */
  function ExampleMembers(): seq<GroupMember> {
    [GroupMember(1, 100), GroupMember(2, -50), GroupMember(3, -20),
     GroupMember(4, -30), GroupMember(5, -45), GroupMember(6, -5)]
  }

  lemma ExampleGivers()
    ensures Givers(ExampleMembers()) == [GroupMember(1, 100)]
  {
    var a, b, c, d, e, f :=
      GroupMember(1, 100), GroupMember(2, -50), GroupMember(3, -20), GroupMember(4, -30), GroupMember(5, -45), GroupMember(6, -5);
    GiversCons(f, []);
    GiversCons(e, [f]);
    GiversCons(d, [e, f]);
    GiversCons(c, [d, e, f]);
    GiversCons(b, [c, d, e, f]);
    GiversCons(a, [b, c, d, e, f]);
  }

  lemma ExampleTakers()
    ensures Takers(ExampleMembers())
            == [GroupMember(2, -50), GroupMember(3, -20), GroupMember(4, -30), GroupMember(5, -45), GroupMember(6, -5)]
  {
    var a, b, c, d, e, f :=
      GroupMember(1, 100), GroupMember(2, -50), GroupMember(3, -20), GroupMember(4, -30), GroupMember(5, -45), GroupMember(6, -5);
    TakersCons(f, []);
    TakersCons(e, [f]);
    TakersCons(d, [e, f]);
    TakersCons(c, [d, e, f]);
    TakersCons(b, [c, d, e, f]);
    TakersCons(a, [b, c, d, e, f]);
  }

  /** The takers sorted: -50, -45, -30, -20, -5. */
  lemma ExampleSort()
    ensures SortByDebt([GroupMember(2, -50), GroupMember(3, -20), GroupMember(4, -30), GroupMember(5, -45), GroupMember(6, -5)])
            == [GroupMember(2, -50), GroupMember(5, -45), GroupMember(4, -30), GroupMember(3, -20), GroupMember(6, -5)]
  {
    var b, c, d, e, f := GroupMember(2, -50), GroupMember(3, -20), GroupMember(4, -30), GroupMember(5, -45), GroupMember(6, -5);
    assert [f] + [] == [f];
    SortCons(f, []);
    assert SortByDebt([f]) == [f];
    assert [e] + [f] == [e, f];
    SortCons(e, [f]);
    assert SortByDebt([e, f]) == [e, f];
    assert [d] + [e, f] == [d, e, f];
    SortCons(d, [e, f]);
    assert [e] + [f] == [e, f];
    InsertPast(d, e, [f]);
    assert Insert(d, [f]) == [d, f];
    assert [e] + [d, f] == [e, d, f];
    assert SortByDebt([d, e, f]) == [e, d, f];
    assert [c] + [d, e, f] == [c, d, e, f];
    SortCons(c, [d, e, f]);
    assert [e] + [d, f] == [e, d, f];
    InsertPast(c, e, [d, f]);
    assert [d] + [f] == [d, f];
    InsertPast(c, d, [f]);
    assert Insert(c, [f]) == [c, f];
    assert [d] + [c, f] == [d, c, f];
    assert [e] + [d, c, f] == [e, d, c, f];
    assert SortByDebt([c, d, e, f]) == [e, d, c, f];
    assert [b] + [c, d, e, f] == [b, c, d, e, f];
    SortCons(b, [c, d, e, f]);
    assert [b] + [e, d, c, f] == [b, e, d, c, f];
  }

  /** The first step of the worked example: nobody holds exactly 100 or more,
      so the front taker (-50) is paid its whole balance. */
  lemma ExampleStep1(p0: seq<GroupMember>)
    requires p0 == [GroupMember(2, -50), GroupMember(5, -45), GroupMember(4, -30), GroupMember(3, -20), GroupMember(6, -5)]
    ensures GiverStep(100, p0)
            == Ok((GroupMemberDistributionTransfer(2, 50),
                   [GroupMember(5, -45), GroupMember(4, -30), GroupMember(3, -20), GroupMember(6, -5)]))
  {
    assert forall i :: 0 <= i < |p0| ==> Magnitude(p0[i]) < 100;
    assert !AnyMatch(p0, SameBalance(100)) && !AnyMatch(p0, MoreBalance(100));
    GiverStepFront(100, p0);
    assert p0[1..] == [GroupMember(5, -45), GroupMember(4, -30), GroupMember(3, -20), GroupMember(6, -5)];
  }

  /** The second step: 50 left, nobody holds exactly 50 or more, so the front
      taker (-45) is paid its whole balance. */
  lemma ExampleStep2(p1: seq<GroupMember>)
    requires p1 == [GroupMember(5, -45), GroupMember(4, -30), GroupMember(3, -20), GroupMember(6, -5)]
    ensures GiverStep(50, p1)
            == Ok((GroupMemberDistributionTransfer(5, 45), [GroupMember(4, -30), GroupMember(3, -20), GroupMember(6, -5)]))
  {
    assert forall i :: 0 <= i < |p1| ==> Magnitude(p1[i]) < 50;
    assert !AnyMatch(p1, SameBalance(50)) && !AnyMatch(p1, MoreBalance(50));
    GiverStepFront(50, p1);
    assert p1[1..] == [GroupMember(4, -30), GroupMember(3, -20), GroupMember(6, -5)];
  }

  /** The third step: 5 left, and the last taker holds exactly 5. */
  lemma ExampleStep3(p2: seq<GroupMember>)
    requires p2 == [GroupMember(4, -30), GroupMember(3, -20), GroupMember(6, -5)]
    ensures GiverStep(5, p2)
            == Ok((GroupMemberDistributionTransfer(6, 5), [GroupMember(4, -30), GroupMember(3, -20)]))
  {
    assert SameBalance(5)(p2[2]) && !SameBalance(5)(p2[0]) && !SameBalance(5)(p2[1]);
    FirstIndexAt(p2, SameBalance(5), 2);
    assert RemoveAt(p2, 2) == [GroupMember(4, -30), GroupMember(3, -20)];
  }

  /** The last two steps of that giver: 45 to the front taker, then the 5
      left to the taker holding exactly 5. */
  lemma ExampleDrainRest(pool: seq<GroupMember>, acc: seq<Transfer>)
    requires pool == [GroupMember(5, -45), GroupMember(4, -30), GroupMember(3, -20), GroupMember(6, -5)]
    requires acc == [GroupMemberDistributionTransfer(2, 50)]
    ensures Drain(50, pool, acc)
            == Ok(([GroupMemberDistributionTransfer(2, 50), GroupMemberDistributionTransfer(5, 45),
                    GroupMemberDistributionTransfer(6, 5)], [GroupMember(4, -30), GroupMember(3, -20)]))
  {
    var c, d, f := GroupMember(3, -20), GroupMember(4, -30), GroupMember(6, -5);
    var t1, t2, t3 := GroupMemberDistributionTransfer(2, 50), GroupMemberDistributionTransfer(5, 45), GroupMemberDistributionTransfer(6, 5);
    ExampleStep2(pool);
    DrainOkStep(50, pool, acc, t2, [d, c, f]);
    ExampleStep3([d, c, f]);
    assert acc + [t2] == [t1, t2];
    DrainOkStep(5, [d, c, f], [t1, t2], t3, [d, c]);
    assert [t1, t2] + [t3] == [t1, t2, t3];
  }

  /** The single giver's 100 against the sorted pool: the front taker (-50),
      the front again (-45), and finally the taker holding exactly 5. */
  lemma ExampleDrain(pool: seq<GroupMember>)
    requires pool == [GroupMember(2, -50), GroupMember(5, -45), GroupMember(4, -30), GroupMember(3, -20), GroupMember(6, -5)]
    ensures Drain(100, pool, [])
            == Ok(([GroupMemberDistributionTransfer(2, 50), GroupMemberDistributionTransfer(5, 45),
                    GroupMemberDistributionTransfer(6, 5)], [GroupMember(4, -30), GroupMember(3, -20)]))
  {
    var c, d, e, f := GroupMember(3, -20), GroupMember(4, -30), GroupMember(5, -45), GroupMember(6, -5);
    var t1 := GroupMemberDistributionTransfer(2, 50);
    ExampleStep1(pool);
    DrainOkStep(100, pool, [], t1, [e, d, c, f]);
    assert [] + [t1] == [t1];
    ExampleDrainRest([e, d, c, f], [t1]);
  }

  /** The plan of the worked example once the givers and the sorted takers
      are known: Alice alone is drained against the pool. */
  lemma ExamplePlan(givers: seq<GroupMember>, pool: seq<GroupMember>)
    requires givers == [GroupMember(1, 100)]
    requires pool == [GroupMember(2, -50), GroupMember(5, -45), GroupMember(4, -30), GroupMember(3, -20), GroupMember(6, -5)]
    ensures Plan(givers, pool, [])
            == Ok([GroupMemberDistribution(1, 100,
                     [GroupMemberDistributionTransfer(2, 50), GroupMemberDistributionTransfer(5, 45),
                      GroupMemberDistributionTransfer(6, 5)])])
  {
    var ts := [GroupMemberDistributionTransfer(2, 50), GroupMemberDistributionTransfer(5, 45), GroupMemberDistributionTransfer(6, 5)];
    var left := [GroupMember(4, -30), GroupMember(3, -20)];
    var entry := GroupMemberDistribution(1, 100, ts);
    ExampleDrain(pool);
    PlanOkStep(givers, pool, [], ts, left);
    assert givers[1..] == [] && [] + [entry] == [entry];
  }

  /** The worked example of the planner: Alice is owed 100 and Bob, Charlie,
      Django, Eve and Frank owe 50, 20, 30, 45 and 5. Alice is paid by Bob
      (50), Eve (45) and Frank (5); Charlie and Django pay nothing. */
  lemma WorkedExample(members: seq<GroupMember>)
    requires members == ExampleMembers()
    ensures GroupDistribution(members)
            == Ok([GroupMemberDistribution(1, 100,
                     [GroupMemberDistributionTransfer(2, 50), GroupMemberDistributionTransfer(5, 45),
                      GroupMemberDistributionTransfer(6, 5)])])
  {
    ExampleGivers();
    ExampleTakers();
    ExampleSort();
    ExamplePlan(Givers(members), SortByDebt(Takers(members)));
  }

  /** The pool can run dry before every giver is paid, even when the balances
      add up to zero: +30 and +20 against -50. The first giver takes the -50
      taker through the strictly-larger choice and its remaining 20 is dropped,
      so the second giver meets an empty pool and `takers[0]` panics. */
  lemma PoolExhaustionPanics(members: seq<GroupMember>)
    requires members == [GroupMember(1, 30), GroupMember(2, 20), GroupMember(3, -50)]
    ensures Total(members) == 0
    ensures GroupDistribution(members) == Panic
  {
    ExhaustionTotal(members);
    ExhaustionSides(members);
    ExhaustionPlan(Givers(members), SortByDebt(Takers(members)));
  }

  /** The balances of that group add up to zero. */
  lemma ExhaustionTotal(members: seq<GroupMember>)
    requires members == [GroupMember(1, 30), GroupMember(2, 20), GroupMember(3, -50)]
    ensures Total(members) == 0
  {
    var g2, t := GroupMember(2, 20), GroupMember(3, -50);
    assert members[1..] == [g2, t] && [g2, t][1..] == [t];
    TotalSingle(t);
  }

  /** Its givers are +30 and +20 in order, and its only taker is -50. */
  lemma ExhaustionSides(members: seq<GroupMember>)
    requires members == [GroupMember(1, 30), GroupMember(2, 20), GroupMember(3, -50)]
    ensures Givers(members) == [GroupMember(1, 30), GroupMember(2, 20)]
    ensures SortByDebt(Takers(members)) == [GroupMember(3, -50)]
  {
    var g1, g2, t := GroupMember(1, 30), GroupMember(2, 20), GroupMember(3, -50);
    GiversCons(t, []);
    GiversCons(g2, [t]);
    GiversCons(g1, [g2, t]);
    TakersCons(t, []);
    TakersCons(g2, [t]);
    TakersCons(g1, [g2, t]);
    SortCons(t, []);
    assert [t] + [] == [t];
  }

  /** The plan of that group: +30 drains the only taker, +20 finds none. */
  lemma ExhaustionPlan(givers: seq<GroupMember>, pool: seq<GroupMember>)
    requires givers == [GroupMember(1, 30), GroupMember(2, 20)] && pool == [GroupMember(3, -50)]
    ensures Plan(givers, pool, []) == Panic
  {
    var g2, t := GroupMember(2, 20), GroupMember(3, -50);
    var paid := GroupMemberDistributionTransfer(3, 30);
    assert GiverStep(30, pool) == Ok((paid, [])) by {
      assert MoreBalance(30)(t);
      assert FirstIndex(pool, SameBalance(30)) == None;
      assert FirstIndex(pool, MoreBalance(30)) == Some(0);
    }
    DrainOkStep(30, pool, [], paid, []);
    assert [] + [paid] == [paid];
    PlanOkStep(givers, pool, [], [paid], []);
    assert givers[1..] == [g2];
    PlanPanicStep([g2], [], [GroupMemberDistribution(1, 30, [paid])]);
  }


}
