# Splitmate debt bookkeeping in Dafny

Splitmate is an ink! smart contract for sharing expenses within a group.

- **Groups.** A group is a list of members. Each member carries a signed
  `debt_value`: positive means the member is owed money (a *giver* of debt to
  settle), negative means the member owes money (a *taker*).
- **Expenses.** An expense names a payer, an amount and a split, either
  `EQUALLY` or `UNEQUALLY`. Posting it moves every listed member's balance by
  what the member must pay minus what the member paid.
- **Planner.** `get_group_distribution` proposes, for each giver, a list of
  transfers from the takers.
- **Executor.** `settle_up` pays takers through a PSP22 token and updates the
  balances of a local copy of the group.
- **Membership index.** `member_groups` maps each account to the ids of its
  groups. Every message that reads or posts checks it.

This project models that core. The model has eight modules:

| module | file | what it holds |
|---|---|---|
| `Types` | `types.dfy` | groups, expenses, inputs, outputs, errors, the `u32`/`u128`/`i128` bounds |
| `Vectors` | `vectors.dfy` | `iter().position`, `Vec::remove` |
| `Expenses` | `expense.dfy` | `Expense::new`, `Expense::validate` |
| `Utils` | `utils.dfy` | the `utils.rs` helpers: posting, `update_group_debt`, `find_taker_by`, `process_giver_debt`, membership check |
| `PostingFacts` | `posting.dfy` | what posting an expense does to balances and totals |
| `Distribution` | `distribution.dfy` | `get_group_distribution`: specification, loop, properties, worked example |
| `Settlement` | `settlement.dfy` | `settle_up`: specification and properties |
| `Contract` | `splitmate.dfy` | the storage as a class `Splitmate`, the messages, the storage invariant |

Each operation has an outcome of type `Result<T>`:

- `Ok(value)` is a normal return.
- `Err(error)` is a `ContractError` the contract returns.
- `Panic` is an `unwrap` of `None`, a failed `checked_*` operation or an index
  out of range.

An ink! trap reverts every write of the message, so a message whose outcome is
`Panic` leaves the storage as it was.

Each `for` or `while` loop of the source is a Dafny `method` with a `while`
loop. Each such method is proved equal to a function on values
(`ensures r == Spec(...)`). The iterator chains (`map`/`collect`,
`filter`/`collect`, `sort_by`, `any`) are functions. The properties are lemmas
about those functions.

The storage is the class `Contract.Splitmate`. Its fields are the maps
`groups`, `group_expenses` and `member_groups` and the counter
`next_group_id`. Its `Valid()` states the invariant every message keeps:

- each group is stored under its own id, below the group counter;
- expense logs are numbered up to each group's expense counter;
- the membership index agrees, in both directions, with the member lists.

The caller (`self.env().caller()`) is a parameter. The outcome of each PSP22
transfer is a parameter `transferOk: nat -> bool`, indexed by the ordinal of the
transfer within the `settle_up` call.

The files under `contracts/` are an older copy of the same logic:

- The transfer list is named `receivers`.
- The member field is named `member`.
- The transfer field is named `debt_value`.
- `next_group_id` starts at 0.
- `Expense::new` reads the group id from the input field `group`.
- There is no `validate`.

One model covers both copies. The older constructor is `Contract.Splitmate.NewLegacy`.
A row below marked "(both copies)" cites one copy. Its member models the
function of the same name in the other copy too.

## Model

| member | source | states |
|---|---|---|
| Vectors.FirstIndex | contracts/splitmate/utils.rs:117 | a found index is in range and its element satisfies the predicate |
| Vectors.FirstIndexSpec | contracts/splitmate/utils.rs:117 | `position` finds the first element that satisfies the predicate, and finds nothing exactly when no element satisfies it |
| Vectors.FirstIndexAt | contracts/splitmate/utils.rs:117 | an index whose element matches, with no match before it, is the one `position` returns |
| Vectors.Position | contracts/splitmate/utils.rs:117 | the scanning loop returns the first matching index, or none |
| Vectors.RemoveAt | contracts/splitmate/utils.rs:121 | `Vec::remove` shortens the vector by one |
| Vectors.RemoveAtElements | contracts/splitmate/utils.rs:121 | the elements before the removed index stay in place, and those after it shift down by one, keeping their relative order |
| Vectors.RemoveAtMultiset | contracts/splitmate/utils.rs:121 | removing an element takes exactly that element out of the multiset |
| Expenses.ExpenseMembers | contracts/expense.rs:33-51 | (both copies) one expense member per input entry, in order: same address, `paid` is the amount for the payer's address and 0 otherwise, `must_pay` is the input value |
| Expenses.NewExpense | contracts/splitmate/expense.rs:34-62 | copies id, group id, amount and distribution type; members correspond one to one with the distribution entries, as above |
| Expenses.Validate | contracts/splitmate/expense.rs:64-78 | `ExpenseAmountIsZero` exactly when the amount is 0; `ExpenseWithoutDistributionMembers` exactly when the amount is non-zero and there are no members; Ok exactly otherwise |
| Expenses.ExpenseMembersPaid | contracts/splitmate/expense.rs:40-50 | the recorded payments add up to the amount times the number of entries naming the payer; the obligations add up to the input values |
| Expenses.PaidTotal | contracts/splitmate/expense.rs:34-62 | a payer listed once is credited the amount, listed twice it is credited twice the amount, not listed it is credited nothing |
| Expenses.ValidateIgnoresSums | contracts/splitmate/expense.rs:73-77 | `validate` accepts an expense whose payments and obligations both differ from its amount |
| Utils.Addresses | contracts/splitmate/group.rs:1-19 | the address list of a member list, one per member in order |
| Utils.TotalAppend | contracts/splitmate/utils.rs:27-41 | the group total and every account's balance add up over a concatenation |
| Utils.TotalRemoveAt | contracts/splitmate/utils.rs:27 | removing a member takes only its balance out of the total and out of its account |
| Utils.MoveToEnd | contracts/splitmate/utils.rs:26-41 | the remove-then-push update keeps the member count |
| Utils.MoveToEndShape | contracts/splitmate/utils.rs:26-41 | after remove-then-push, the updated member is last and the other members keep their order |
| Utils.AddressesRemoveAt | contracts/splitmate/utils.rs:26-41 | removing a member and pushing one with the same address keeps the multiset of addresses |
| Utils.MoveToEndEffect | contracts/splitmate/utils.rs:26-41 | the remove-then-push update keeps the addresses, and changes only the moved member's balance and the total by its change |
| Utils.AmountToPay | contracts/splitmate/utils.rs:103-111 | (both copies) panics exactly when an equal split has no members (`checked_div` by 0); an equal share is at most the amount; an unequal share is the member's `must_pay` |
| Utils.AmountToPayFloor | contracts/splitmate/utils.rs:105-108 | the equal share is the floor of amount / members: share·n ≤ amount < (share+1)·n, with remainder amount mod n |
| Utils.PostExpenseCons | contracts/splitmate/utils.rs:15-45 | the loop goes on after a posted member, and stops at the first error or panic with that outcome |
| Utils.PostStepFound | contracts/splitmate/utils.rs:18-41 | a member found at index i, whose `obligation − paid` and new balance fit `i128`, is moved to the end with balance old + obligation − paid |
| Utils.PostStepPanics | contracts/splitmate/utils.rs:26-39 | posting one entry panics exactly when its member is found and either the equal share divides by zero, or `obligation − paid` or the new balance leaves `i128` |
| Utils.ProcessExpenseDebts | contracts/splitmate/utils.rs:15-45 | (both copies) the loop over expense members yields the group with the posted member list, or the first error or panic |
| Utils.UpdateDebt | contracts/splitmate/utils.rs:82-101 | never returns an error: it updates or panics |
| Utils.UpdateDebtNeedsMember | contracts/splitmate/utils.rs:88-92 | an update succeeds only for an address in the group, and panics for an absent address |
| Utils.UpdateDebtPanics | contracts/splitmate/utils.rs:88-99 | an update panics exactly when the address is absent or the new balance leaves `i128`, and succeeds otherwise |
| Utils.AddressIndex | contracts/splitmate/utils.rs:88-92 | the position scan by address finds nothing exactly when the address is not in the group |
| Utils.UpdateDebtEffect | contracts/splitmate/utils.rs:82-101 | a successful update adds `amount` to a taker, or subtracts it from a giver; only that account's balance and the total change; that member ends up last and the others keep their order; the addresses are kept |
| Utils.UpdateGroupDebt | contracts/splitmate/utils.rs:82-101 | the in-place update equals the specification update |
| Utils.TakeFirst | contracts/utils.rs:95-109 | returns nothing and leaves the pool unchanged exactly when no taker matches; otherwise it removes the first matching taker and returns its address |
| Utils.FindTakerBy | contracts/splitmate/utils.rs:113-127 | the in-place search equals the specification search |
| Utils.GiverStep | contracts/utils.rs:47-80 | never an error; panics exactly on an empty pool; the transfer is at most the pending amount; exactly one taker is removed |
| Utils.GiverStepExact | contracts/splitmate/utils.rs:52-60 | (both copies) if some taker's magnitude equals the pending amount, the first such taker is removed and the transfer is the pending amount |
| Utils.GiverStepLarger | contracts/splitmate/utils.rs:63-71 | (both copies) otherwise, if some taker has a larger magnitude, the first such taker is removed whole (its leftover is dropped) and the transfer is the pending amount |
| Utils.GiverStepFront | contracts/splitmate/utils.rs:73-79 | (both copies) otherwise the front taker is removed and its whole magnitude, strictly less than the pending amount, is transferred |
| Utils.GiverStepPool | contracts/splitmate/utils.rs:47-80 | each step removes exactly one taker of the pool, at some index; the transfer names that taker and pays the smaller of its magnitude and the pending amount |
| Utils.ProcessGiverDebt | contracts/splitmate/utils.rs:47-80 | the method returns what the specification step returns, and panics exactly when it does |
| Utils.GetGroupById | contracts/splitmate/utils.rs:150-155 | returns the stored group exactly when the id is stored, and `GroupDoesNotExist` otherwise |
| Utils.CheckGroupMembership | contracts/utils.rs:111-136 | (both copies) `GroupDoesNotExist` for an unknown id, then `MemberIsNotInTheGroup` for a caller with no index entry or an entry lacking the id; otherwise the stored group unchanged |
| PostingFacts.PostStepEffect | contracts/splitmate/utils.rs:18-41 | posting one member keeps the addresses, moves that member to the end with the others in their order, and adds `obligation − paid` to that account and to the total |
| PostingFacts.PostStepAddresses | contracts/splitmate/utils.rs:26-41 | posting one member keeps the multiset of addresses |
| PostingFacts.PostStepError | contracts/splitmate/utils.rs:18-24 | posting one member errs exactly when its address is not in the group, and then with `ExpenseDistributionMemberIsNotInTheGroup` |
| PostingFacts.PostExpenseEffect | contracts/splitmate/utils.rs:15-45 | a successful posting keeps the addresses and adds each account's summed `obligation − paid` to it and to the total |
| PostingFacts.PostExpenseError | contracts/splitmate/utils.rs:15-45 | an error is `ExpenseDistributionMemberIsNotInTheGroup` and names an unknown address; with every address known there is no error |
| PostingFacts.SumDeltaSplit | contracts/splitmate/utils.rs:30-39 | the summed change is the summed obligations minus the summed payments |
| PostingFacts.EqualObligations | contracts/splitmate/utils.rs:105-108 | under an equal split the obligations sum to the member count times the floor share |
| PostingFacts.WeightedObligations | contracts/splitmate/utils.rs:109 | under an unequal split the obligations sum to the `must_pay` values |
| PostingFacts.EqualSplitTotal | contracts/splitmate/utils.rs:103-108 | after an equal split whose payments add up to the amount, the group total drops by amount mod n |
| PostingFacts.EqualSplitRoundingGap | contracts/splitmate/expense.rs:40-45 | with the payer listed once among n entries, an equal split lowers the group total by amount mod n, so the total is kept exactly when n divides the amount |
| PostingFacts.WeightedSplitBalance | contracts/splitmate/utils.rs:109 | with the payer listed once, an unequal split changes the total by the summed values minus the amount |
| Distribution.Givers | contracts/splitmate/lib.rs:111-116 | every giver has a positive balance |
| Distribution.GiversCount | contracts/splitmate/lib.rs:111-116 | the givers are exactly the members with positive balance, each with its multiplicity; zero balances are not givers |
| Distribution.Takers | contracts/splitmate/lib.rs:122-127 | every taker has a negative balance |
| Distribution.TakersCount | contracts/splitmate/lib.rs:122-127 | the takers are exactly the members with negative balance, each with its multiplicity; zero balances are not takers |
| Distribution.Insert | contracts/splitmate/lib.rs:128 | inserting adds one element |
| Distribution.InsertMultiset | contracts/splitmate/lib.rs:128 | inserting adds exactly that element |
| Distribution.InsertAtLeast | contracts/splitmate/lib.rs:128 | inserting keeps a lower bound on balances |
| Distribution.InsertSorted | contracts/splitmate/lib.rs:128 | inserting into a sorted list keeps it sorted |
| Distribution.SortByDebt | contracts/splitmate/lib.rs:128 | the sort keeps the length |
| Distribution.InsertWithDebt | contracts/splitmate/lib.rs:128 | inserting keeps the order among members with equal balance |
| Distribution.SortByDebtCorrect | contracts/splitmate/lib.rs:128 | the sort is ascending by balance, a permutation, and stable (members with equal balance keep their order) |
| Distribution.Payees | contracts/splitmate/lib.rs:137-144 | the accounts paid by a transfer list, in order |
| Distribution.PaidAppend | contracts/splitmate/lib.rs:137-144 | appending a transfer adds its value to the paid total |
| Distribution.DrainOkStep | contracts/splitmate/lib.rs:138-144 | one iteration of `while pending_debt > 0`: the transfer is at most the pending debt, and the loop goes on with the rest |
| Distribution.DrainPanicStep | contracts/splitmate/lib.rs:138-144 | an empty pool with debt pending panics |
| Distribution.PlanOkStep | contracts/splitmate/lib.rs:130-147 | one giver's transfers become its entry, and the next giver starts on the pool it left |
| Distribution.PlanPanicStep | contracts/splitmate/lib.rs:130-147 | a giver whose loop panics makes the whole planning panic |
| Distribution.DrainGiver | contracts/splitmate/lib.rs:137-144 | the pending-debt loop over the local taker vector computes the specification's transfers and remaining pool, and never errs |
| Distribution.DistributeGroup | contracts/splitmate/lib.rs:111-149 | the planner method equals the specification plan |
| Distribution.StepPool | contracts/splitmate/utils.rs:47-80 | a step moves exactly the paid taker's address from the pool into the transfers |
| Distribution.StepNegative | contracts/splitmate/utils.rs:47-80 | with debt pending and a pool of takers, a step pays a positive value and leaves only takers |
| Distribution.DrainPaid | contracts/splitmate/lib.rs:137-144 | a giver's loop only appends transfers, and they pay exactly its pending debt |
| Distribution.DrainPool | contracts/splitmate/lib.rs:137-144 | the payees and the pool left are, together, the pool given |
| Distribution.DrainLeftNegative | contracts/splitmate/lib.rs:137-144 | the pool left holds only takers |
| Distribution.DrainPositive | contracts/splitmate/lib.rs:137-144 | every transfer a giver's loop emits is positive |
| Distribution.AllPayeesAppend | contracts/splitmate/lib.rs:146 | the payees of a plan with one more entry are the old ones followed by that entry's |
| Distribution.PlanPrefix | contracts/splitmate/lib.rs:130-147 | the givers' loop appends exactly one entry per giver |
| Distribution.DrainEntry | contracts/splitmate/lib.rs:130-147 | a giver's entry has its address, its balance as `total_debt` and positive transfers summing to it |
| Distribution.PlanEntries | contracts/splitmate/lib.rs:130-147 | entry i of the plan is giver i's: address, `total_debt` and positive transfers summing to it |
| Distribution.PlanPool | contracts/splitmate/lib.rs:130-147 | the shared pool is consumed: no taker is paid more often than it is in the pool |
| Distribution.NoGiversNoPlan | contracts/splitmate/lib.rs:118-120 | the result is the empty list exactly when no member has a positive balance |
| Distribution.NegativeSorted | contracts/splitmate/lib.rs:122-128 | sorting keeps a pool of takers a pool of takers |
| Distribution.GroupDistributionEntries | contracts/splitmate/lib.rs:103-150 | when it does not panic: one entry per giver in member order, each with the giver's address and balance, paid exactly by positive transfers |
| Distribution.PlanEntryAt | contracts/splitmate/lib.rs:130-147 | the plan entry at index i belongs to giver i |
| Distribution.GroupDistributionPool | contracts/splitmate/lib.rs:103-150 | only takers are paid, and none more often than it is listed |
| Distribution.AddressesInsert | contracts/splitmate/lib.rs:128 | inserting a member adds its address to the address multiset |
| Distribution.AddressesSorted | contracts/splitmate/lib.rs:128 | sorting keeps the address multiset |
| Distribution.PayeesOweMoney | contracts/splitmate/lib.rs:103-150 | every payee of the plan is a member with a negative balance |
| Distribution.ExampleSort | contracts/splitmate/lib.rs:298-343 | the test's takers sorted: Bob −50, Eve −45, Django −30, Charlie −20, Frank −5 |
| Distribution.ExampleDrain | contracts/splitmate/lib.rs:298-343 | Alice's 100 is paid by Bob 50, Eve 45 and Frank 5, leaving Django and Charlie |
| Distribution.WorkedExample | contracts/splitmate/lib.rs:298-343 | the test's outcome: one entry, `total_debt` 100, transfers Bob 50, Eve 45, Frank 5 |
| Distribution.PoolExhaustionPanics | contracts/splitmate/lib.rs:137-144 | a zero-sum group +30, +20 against −50 panics: the strictly-larger branch drops the taker's leftover and the second giver meets an empty pool |
| Settlement.LeadingSuccesses | contracts/splitmate/lib.rs:221-251 | the successful prefix of a group's transfers is no longer than the group's taker list |
| Settlement.LeadingSuccessesSpec | contracts/splitmate/lib.rs:221-251 | every transfer of the prefix succeeds, and the one right after it, if any, fails |
| Settlement.TakerAddresses | contracts/splitmate/lib.rs:250 | the settled addresses, one per taker |
| Settlement.TakerAddressesPrefix | contracts/splitmate/lib.rs:250 | the addresses of a prefix are the prefix of the addresses |
| Settlement.CreditNext | contracts/splitmate/lib.rs:221-251 | a successful taker is credited and the loop goes on with the next transfer, with one more success in the prefix |
| Settlement.CreditRun | contracts/splitmate/lib.rs:221-251 | the taker loop settles exactly the successful prefix, sums its values, and reports a failure exactly when the prefix is short |
| Settlement.CreditBalances | contracts/splitmate/lib.rs:245 | the taker loop keeps the addresses and credits each account with its values in the successful prefix |
| Settlement.CreditTotal | contracts/splitmate/lib.rs:245-248 | the taker loop raises the group total by the running total it accumulates |
| Settlement.SettleGroupOutcome | contracts/splitmate/lib.rs:213-259 | a group's settled list is the prefix of its taker addresses up to the first failed transfer |
| Settlement.SettleGroupEffect | contracts/splitmate/lib.rs:213-259 | for one group: the successful prefix is settled and credited, the caller is debited by its sum, the group total and addresses are kept |
| Settlement.SettleGroupNeedsCaller | contracts/splitmate/lib.rs:229-258 | a caller absent from the group's members makes the group's settlement panic or fail |
| Settlement.SettleNext | contracts/splitmate/lib.rs:212-260 | a group passes the membership check; a failed transfer returns `result: false` with the lists so far; otherwise the next group starts after this group's transfers |
| Settlement.TransferCountCons | contracts/splitmate/lib.rs:212-221 | the transfers requested are the first group's takers plus the rest |
| Settlement.SettleSucceedsIff | contracts/splitmate/lib.rs:204-266 | when it does not panic or err, `result` is true exactly when every requested transfer succeeds |
| Settlement.SettleListsIff | contracts/splitmate/lib.rs:237-265 | `total_settled_debts` is `None` exactly when `result` is true |
| Settlement.ListsFromIndexed | contracts/splitmate/lib.rs:237-250 | the lists hold one entry per group from the first, each group settled whole except the last, which is a proper prefix |
| Settlement.SettleFailureLists | contracts/splitmate/lib.rs:229-243 | on a failed transfer: the earlier groups' lists whole, then the failing group's successful prefix |
| Settlement.ExampleGroup | contracts/splitmate/lib.rs:221-243 | one group, second transfer fails: only the first taker is settled and credited, and the caller is debited by its value alone |
| Settlement.ExampleSettle | contracts/splitmate/lib.rs:204-266 | the same request returns `result: false` with the single list [first taker] |
| Contract.Repeat | contracts/splitmate/lib.rs:54-67 | n copies of the new group id, and nothing else |
| Contract.IndexForward | contracts/splitmate/lib.rs:28-35 | an account whose index entry lists a group is one of its members |
| Contract.IndexBackward | contracts/splitmate/lib.rs:28-35 | every member of a stored group has that group in its index entry |
| Contract.CheckedCallerIsMember | contracts/splitmate/utils.rs:129-148 | a caller that passes the membership check is a member of the group it gets back |
| Contract.RegisterForward | contracts/splitmate/lib.rs:54-75 | after registration, every index entry names a stored group that lists the account |
| Contract.RegisterBackward | contracts/splitmate/lib.rs:54-75 | after registration, every member of every stored group has the group in its index entry |
| Contract.RegisterSpec | contracts/lib.rs:41-46 | the loop appends the new id once per time the account is listed, at the end of its list, and adds an entry for every listed account |
| Contract.RegisterKeepsIndex | contracts/splitmate/lib.rs:54-75 | registering the new group keeps the index consistent with the groups |
| Contract.ReplaceKeepsIndex | contracts/splitmate/lib.rs:98 | storing a group with the same addresses under its id keeps the index consistent |
| Contract.PostedGroup | contracts/splitmate/lib.rs:84-98 | builds the expense with the group's next expense id; errs in the order amount zero, no members, unknown address; on success the addresses are kept, each balance moves by its posted change, and the expense counter rises by one within `u32` |
| Contract.PostToGroup | contracts/splitmate/lib.rs:84-98 | the method computes that outcome |
| Contract.CreditTakers | contracts/splitmate/lib.rs:221-251 | the taker loop with its running total equals the specification loop, and the running total stays within the taker values |
| Contract.CreditTaker | contracts/splitmate/lib.rs:244-250 | crediting one successful taker either panics as the specification does, or advances it by one taker |
| Contract.SettleGroupDebts | contracts/splitmate/lib.rs:213-259 | one group's loop and final debit equal the specification's outcome for that group |
| Contract.AddGroupKeepsStored | contracts/splitmate/lib.rs:49-79 | `add_group` keeps the storage invariant: the new id is fresh and has no log |
| Contract.AddExpenseKeepsStored | contracts/splitmate/lib.rs:81-101 | `add_expense` keeps the storage invariant |
| Contract.Splitmate.New | contracts/splitmate/lib.rs:38-47 | empty mappings, the given token address, group counter 1; the invariant holds |
| Contract.Splitmate.NewLegacy | contracts/lib.rs:26-34 | empty mappings, group counter 0; the invariant holds |
| Contract.Splitmate.AddGroup | contracts/splitmate/lib.rs:49-79 | (both copies) a group with the old counter as id and the listed accounts, in order, at debt 0; the id appended to each listed account's entry, once per listing; counter +1; Ok; panics with nothing changed when the counter is at the `u128` maximum |
| Contract.Splitmate.AddExpense | contracts/splitmate/lib.rs:81-101 | membership errors first, then the posting's outcome; on any error nothing changes; on success the group is replaced and the expense appended to its log |
| Contract.Splitmate.GetGroupDistribution | contracts/splitmate/lib.rs:103-150 | the membership check's error, or the plan for the checked group's members |
| Contract.Splitmate.SettleUp | contracts/splitmate/lib.rs:204-266 | the outcome of the specification settlement; the method has no `modifies` clause, so the stored groups are exactly as before |

## Left out

- The PSP22 transfer (`PSP22Ref::transfer`) is a cross-contract call. It is the parameter `transferOk`: the outcome of each transfer, by ordinal. The token balances are not modelled.
- Transfers made before a `Panic` or an `Err` in `settle_up` are not reverted in the model: the oracle only decides success, and the token side is not modelled.
- The `u128 as i128` and `i128 as u128` casts, and `i128::MIN.abs()`, are not modelled bit by bit. Magnitudes are mathematical.
- Contract.Splitmate.AddExpense: requires every input amount and value to fit `i128` (`InputFitsI128`), so the casts in posting are exact; a larger value, which the source would wrap, is not modelled.
- Contract.Splitmate.SettleUp: requires each group's taker values to sum within `i128` (`SumsFitI128`), because the final debit casts the `u128` running total to `i128`; a larger total is not modelled.
- Utils.ProcessExpenseDebts: requires the expense's amounts to fit `i128`, for the same casts.
- Utils.UpdateGroupDebt: requires the amount to fit `i128`, for the same cast.
- `settle_up` never writes the local group back to storage. The model keeps this: `SettleUp` changes nothing. The balances of the discarded local groups are stated by `Settlement.SettleGroupEffect`.
- The checked increments in `add_group` and `add_expense` are checked before the writes in the model. In the source they come after the writes, which the trap reverts, so the final state is the same.
- The stable `sort_by` from the Rust library is an insertion sort in the model. It is proved sorted, a permutation and stable.
- The views `get_member_group_distributions`, `get_group`, `get_member_groups` and `get_expenses_by_group` are not modelled. The first panics through `unwrap` (contracts/splitmate/lib.rs:166) when the caller is not a giver of some group. The last panics (contracts/splitmate/lib.rs:201) for a group with no expenses.
- The token address is stored and nothing else; `contracts/usdnp/lib.rs` is a thin PSP22 wrapper and is not part of this model.
- SCALE encoding, type metadata and the ink! `Mapping` host storage are not modelled. `Mapping` becomes Dafny maps, and `self.env().caller()` becomes a parameter.
- The older `Group` has no `next_expense_id`; the shared model sets it to 1. The older copy's field and type names (`member`, `receivers`, `DistributionMemberTransfer`, `debt_value` in transfers) are shown under the newer names.
- The output model files do not define the `GroupMemberDistribution*` names that `contracts/splitmate/lib.rs` uses, and `input_models.rs` declares `receivers` where lib.rs reads `takers`/`value`. The model follows lib.rs.
- The test helpers (`set_balance`, `init`) are not modelled. Only the asserted distribution is.
