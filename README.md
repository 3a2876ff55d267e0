# Time-credit ledger and community governance, modelled in Dafny

The system has two small on-chain contracts of a community time bank. Both
are expressed as in-memory contract dispatchers over a key-value store.

- **Time credit** (`time_credit.dfy`, module `TimeCredit`). This is a map from
  principal to balance.
  - `mint` and `burn` may be called only by `"CONTRACT_OWNER"`.
  - `transfer` may be called only by the principal whose funds move.
  - `get-balance` reads an unknown principal as 0.
  - Authorisation is always checked before the balance, and every failure
    returns before anything is written.
- **Community governance** (`community_governance.dfy`, module
  `CommunityGovernance`). This holds a proposal nonce, proposal records and
  one vote record per (proposal, voter).
  - `create-proposal` takes the next nonce as the new id. The proposal's end
    block is the current height plus the voting period.
  - `vote` is accepted only strictly before the end block, once per voter,
    and moves exactly one tally.
  - `end-proposal` resolves an Active proposal at or past its end block, once.
    It passes on a strict majority, so a tie is rejected.
  - `get-proposal` and `get-vote` are plain reads.

Each contract is modelled twice:

- **Pure transition functions** on a store value (`MintResult`, `VoteResult`,
  …). Each returns the new store or the error, and its contract states the
  error conditions, what changes and what stays the same.
  - Lemmas relate several calls: total-supply accounting over any history of
    ledger calls, and an invariant kept by every governance call (ids 1
    through the nonce exist and nothing else does; each tally equals the
    number of vote records with that choice), among others.
- **A class holding the contract's mutable state.** `Ledger` has a `map` of
  balances. `Governance` has the proposal map, the vote map and the nonce.
  - Its methods update the fields step by step, in the same order as the
    contract.
  - Each method's postcondition ties the new state to the transition function
    and states that a failure leaves the state untouched.

`Outcomes` (`outcomes.dfy`) holds the shared `Principal`, `Option`, `Result`
and `Reply` types. The caller identity (`sender`) and the current block height
are parameters of each call.

The code differs from what one might expect of such contracts in these ways,
and the model follows the code:

- `mint` has no overflow check; amounts are unbounded naturals.
- A proposal stays Active past its end block until someone calls
  `end-proposal`.
- `vote` consults the block height only, never the status. The block height
  is a caller-assigned input that may go back. A height moved back below the
  end block after `end-proposal` therefore lets a resolved proposal take votes.
  Its tallies change while its status stays as resolved
  (`ResolvedProposalStillTakesVotes`).
- Zero amounts are accepted by `mint`, `transfer` and `burn`.
- A transfer from a principal with no record writes a 0 record, as the
  contract does.

## Model

| member | source | states |
|---|---|---|
| `TimeCredit.MintResult` | tests/time-credit.test.ts:12-16 | Fails with NotAuthorized exactly when the sender is not the owner. Otherwise the recipient's balance (absent read as 0) rises by exactly `amount` and no other balance changes. |
| `TimeCredit.TransferResult` | tests/time-credit.test.ts:17-24 | Fails exactly when sender ≠ from or from's balance < amount. The error is NotAuthorized iff sender ≠ from, so authorisation wins even when funds suffice. On success, for distinct principals, `from` falls by `amount` and `to` rises by `amount`. A self-transfer leaves the balance unchanged, and third parties are unchanged. |
| `TimeCredit.BurnResult` | tests/time-credit.test.ts:25-31 | Fails exactly when the sender is not the owner or the balance is short. The error is NotAuthorized iff the sender is not the owner, checked first. On success the owner's balance falls by exactly `amount` and stays a natural, and no other balance changes. |
| `TimeCredit.MintRaisesSupply` | tests/time-credit.test.ts:15 | A successful mint raises the total supply by exactly `amount`. |
| `TimeCredit.TransferPreservesSupply` | tests/time-credit.test.ts:20-23 | A successful transfer leaves the total supply unchanged, including a self-transfer. |
| `TimeCredit.BurnLowersSupply` | tests/time-credit.test.ts:28-30 | A successful burn lowers the total supply by exactly `amount`. |
| `TimeCredit.SupplyConserved` | tests/time-credit.test.ts:10-38 | For any history of mint/transfer/burn calls, final supply + credits burned = initial supply + credits minted. Failed calls count as neither. |
| `TimeCredit.NeverCreditedIsZero` | tests/time-credit.test.ts:10-38 | A principal that reads 0 and that no call in a history mints to or transfers to still reads 0 afterwards, whatever else happens. |
| `TimeCredit.Ledger.constructor` | tests/time-credit.test.ts:6-8 | The store starts empty. |
| `TimeCredit.Ledger.Mint` | tests/time-credit.test.ts:12-16 | Performs `MintResult` on the balances field. The reply is Fail(e) with the state untouched on error. Supply rises by `amount` on success. |
| `TimeCredit.Ledger.Transfer` | tests/time-credit.test.ts:17-24 | Debits then credits the balances field as `TransferResult` does. The state is untouched on error, and supply is unchanged. |
| `TimeCredit.Ledger.Burn` | tests/time-credit.test.ts:25-31 | Performs `BurnResult` on the balances field. The state is untouched on error, and supply falls by `amount` on success. |
| `TimeCredit.Ledger.GetBalance` | tests/time-credit.test.ts:32-34 | A read that changes nothing. It returns `BalanceOf` the stored balances: the stored balance, or 0 for an unknown principal. |
| `TimeCredit.MintTransferBurnScenario` | tests/time-credit.test.ts:40-62 | The owner mints 100 to user1, which succeeds, and reading user1 then gives 100. user1 transfers 50 to user2, which succeeds, leaving 50 and 50. The owner burns 50 of user1's, which succeeds and leaves 0. |
| `CommunityGovernance.CreateProposalResult` | tests/community-governance.test.ts:16-27 | Never fails. The id is nonce + 1 and becomes the new nonce. The record is proposer = sender, the description, tallies 0/0, Active, endBlock = height + votingPeriod. The id set grows by exactly this id, other proposals and all votes are unchanged. |
| `CommunityGovernance.VoteResult` | tests/community-governance.test.ts:28-44 | Returns InvalidOrExpired iff the proposal is absent or height ≥ endBlock; the status is not consulted. Returns AlreadyVoted iff the window is open and (id, sender) already has a record. It succeeds iff the proposal exists, height < endBlock and (id, sender) has no record. On success it records the choice and raises exactly the matching tally by one. Proposer, description, status and endBlock are unchanged, as are other proposals, existing vote records and the nonce. |
| `CommunityGovernance.EndProposalResult` | tests/community-governance.test.ts:45-53 | Fails with InvalidOrNotEnded iff the proposal is absent, height < endBlock, or the status is not Active. On success only that proposal's status changes. It becomes Passed iff votesFor > votesAgainst, else Rejected, so ties reject. |
| `CommunityGovernance.GetProposalResult` | tests/community-governance.test.ts:54-56 | Some(record) iff the id is stored, else None. |
| `CommunityGovernance.GetVoteResult` | tests/community-governance.test.ts:57-59 | Some(choice) iff (id, voter) has a record, else None. |
| `CommunityGovernance.InitialInv` | tests/community-governance.test.ts:8-12 | The empty store with nonce 0 satisfies the invariant. |
| `CommunityGovernance.CreateProposalKeepsInv` | tests/community-governance.test.ts:16-27 | Under the invariant the new id was never used, and the invariant still holds afterwards. |
| `CommunityGovernance.VoteKeepsInv` | tests/community-governance.test.ts:37-43 | A successful vote keeps the invariant: tallies still equal the count of records per choice. |
| `CommunityGovernance.EndProposalKeepsInv` | tests/community-governance.test.ts:51-52 | A successful resolution keeps the invariant. |
| `CommunityGovernance.TalliesCountVoters` | tests/community-governance.test.ts:37-43 | Under the invariant, votesFor + votesAgainst equals the number of vote records for that proposal. |
| `CommunityGovernance.SecondVoteFails` | tests/community-governance.test.ts:31-36 | After a successful vote on a reachable store (one satisfying the invariant), any later vote by the same voter on that proposal fails, whatever either choice was and whatever calls came in between. It fails with AlreadyVoted before the end block and with InvalidOrExpired from it on. |
| `CommunityGovernance.EndProposalOnce` | tests/community-governance.test.ts:48-51 | After a successful resolution on a reachable store, resolving the same proposal again fails with InvalidOrNotEnded at any height and after any history of calls. |
| `CommunityGovernance.NoVoteAfterEnd` | tests/community-governance.test.ts:28-53 | Once a proposal of a reachable store is resolved at some height, no vote on it succeeds at that height or later, whatever calls come in between. |
| `CommunityGovernance.ResolvedProposalStillTakesVotes` | tests/community-governance.test.ts:28-53 | Create (period 100, height 0), resolve at height 100 (0-0, Rejected), then vote for at height 50. The vote is accepted because only the height is checked (line 31), leaving the proposal Rejected with votesFor = 1. |
| `CommunityGovernance.RunKeepsRecords` | tests/community-governance.test.ts:14-63 | Under the invariant, no history of calls removes a proposal, moves its end block, changes a resolved (Passed/Rejected) status, or removes or changes a vote record. |
| `CommunityGovernance.RunKeepsInv` | tests/community-governance.test.ts:14-63 | Every history of calls keeps the invariant. Proposals are exactly ids 1 through the nonce, every vote record belongs to a proposal, and each tally equals the number of vote records with that choice. |
| `CommunityGovernance.Governance.constructor` | tests/community-governance.test.ts:8-12 | No proposals, no votes, nonce 0, and the invariant holds. |
| `CommunityGovernance.Governance.CreateProposal` | tests/community-governance.test.ts:16-27 | Increments the nonce, then stores the new record, as `CreateProposalResult` states. It returns an id not used before and keeps the invariant. |
| `CommunityGovernance.Governance.Vote` | tests/community-governance.test.ts:28-44 | Follows `VoteResult`. On failure the reply is Fail(e) and all three fields are untouched. The invariant is kept. |
| `CommunityGovernance.Governance.EndProposal` | tests/community-governance.test.ts:45-53 | Follows `EndProposalResult`. On failure the reply is Fail(InvalidOrNotEnded) and the state is untouched. The invariant is kept. |
| `CommunityGovernance.Governance.GetProposal` | tests/community-governance.test.ts:54-56 | A read that changes nothing. It returns `GetProposalResult` of the current store: the record, or None for an unknown id. |
| `CommunityGovernance.Governance.GetVote` | tests/community-governance.test.ts:57-59 | A read that changes nothing. It returns `GetVoteResult` of the current store: the recorded choice, or None. |
| `CommunityGovernance.ProposalScenario` | tests/community-governance.test.ts:65-106 | user1's proposal with period 100 at height 0 gets id 1. user2's vote for succeeds, and user2's second vote fails with AlreadyVoted. user3's vote against succeeds. At height 101 the resolution succeeds and the 1-1 tie ends Rejected. The description and user2's vote read back as stored. |

## Left out

- The string-named dispatch and its "Method not found" default. Each
  operation is a separate function and method instead.
- The string key scheme (`proposal-<id>`, `vote-<id>-<voter>`). It is
  replaced by typed maps, whose keys cannot collide.
- JavaScript number semantics: negative, fractional or non-numeric arguments,
  and loss of precision on large values. Amounts, heights and voting periods
  are unbounded naturals.
- An overflow error on `mint`. The contract has no such check, so none is
  modelled.
- Advancing the block height. It is an input to each call. Monotonicity is
  assumed only where a lemma says so (`NoVoteAfterEnd`).
- The aliasing of stored records. `get-proposal` and `get-vote` hand out
  the stored object itself, and `vote` and `end-proposal` change that object
  in place. A caller holding a `get-proposal` result therefore sees later tally
  and status changes, and writing to it changes the store, for example a
  status set before the end block. The model hands out copies
  (`Option<Proposal>`, `Option<bool>`), so it captures neither the shared view
  nor writes through it.
- The content of a proposal description. It is opaque text, stored and read
  back unchanged.
- The numeric status codes 1, 2 and 3. They appear as the enumeration
  `Active`, `Passed`, `Rejected`.
- The test harness (`describe`, `it`, `expect`, `beforeEach`). Its scenarios
  appear only as the two scenario methods.
