/** Community governance: proposals numbered from 1 by a nonce, one vote
    per (proposal, voter) while the block height is below the proposal's
    end block, and a one-time resolution at or past the end block that
    passes on a strict majority only. The block height and the caller are
    supplied with every call. */
module CommunityGovernance {
  import opened Outcomes

  /** Proposal status; the contract stores these as 1, 2 and 3. */
  datatype Status = Active | Passed | Rejected

  datatype Proposal = Proposal(
    proposer: Principal,
    description: string,
    votesFor: nat,
    votesAgainst: nat,
    status: Status,
    endBlock: nat)

  datatype GovError = InvalidOrExpired | AlreadyVoted | InvalidOrNotEnded

  type VoteKey = (nat, Principal)

  /** The whole store: proposal records, vote records and the nonce. */
  datatype Store = Store(proposals: map<nat, Proposal>, votes: map<VoteKey, bool>, nonce: nat)

  /** The store as the contract starts: nothing recorded, nonce 0. */
  function Initial(): Store
  {
    Store(map[], map[], 0)
  }

  // ---------------------------------------------------------------------
  // Vote records counted per proposal

  /** The vote records for proposal `id` whose choice is `choice`. */
  function Ballots(votes: map<VoteKey, bool>, id: nat, choice: bool): (ballots: set<VoteKey>)
  {
    set k | k in votes && k.0 == id && votes[k] == choice
  }

  /** The invariant every call preserves: the proposals are exactly ids 1
      through the nonce, every vote record belongs to a proposal, and each
      proposal's tallies count its vote records. */
  ghost predicate Inv(s: Store)
  {
    && (forall id: nat :: id in s.proposals <==> 1 <= id <= s.nonce)
    && (forall k :: k in s.votes ==> k.0 in s.proposals)
    && (forall id :: id in s.proposals ==>
          s.proposals[id].votesFor == |Ballots(s.votes, id, true)| &&
          s.proposals[id].votesAgainst == |Ballots(s.votes, id, false)|)
  }

  // ---------------------------------------------------------------------
  // The operations as transitions on the store

  /** create-proposal: never fails; the next nonce becomes the new id. */
  function CreateProposalResult(s: Store, description: string, votingPeriod: nat, sender: Principal, height: nat): (r: (nat, Store))
    ensures r.0 == s.nonce + 1 && r.1.nonce == r.0
    ensures r.0 in r.1.proposals &&
            r.1.proposals[r.0] == Proposal(sender, description, 0, 0, Active, height + votingPeriod)
    ensures r.1.proposals.Keys == s.proposals.Keys + {r.0}
    ensures forall id :: id in s.proposals && id != r.0 ==> r.1.proposals[id] == s.proposals[id]
    ensures r.1.votes == s.votes
  {
    var id := s.nonce + 1;
    (id, s.(nonce := id, proposals := s.proposals[id := Proposal(sender, description, 0, 0, Active, height + votingPeriod)]))
  }

  /** vote: only the height is checked, not the status; a voter may vote
      once per proposal, and exactly one tally moves by one. */
  function VoteResult(s: Store, id: nat, choice: bool, sender: Principal, height: nat): (r: Result<Store, GovError>)
    ensures r == Err(InvalidOrExpired) <==> id !in s.proposals || height >= s.proposals[id].endBlock
    ensures r == Err(AlreadyVoted) <==>
              id in s.proposals && height < s.proposals[id].endBlock && (id, sender) in s.votes
    ensures r.Ok? <==>
              id in s.proposals && height < s.proposals[id].endBlock && (id, sender) !in s.votes
    ensures r.Ok? ==>
              && id in r.value.proposals
              && r.value.votes.Keys == s.votes.Keys + {(id, sender)}
              && r.value.votes[(id, sender)] == choice
              && r.value.proposals.Keys == s.proposals.Keys
              && r.value.nonce == s.nonce
    ensures r.Ok? ==>
              var p, p' := s.proposals[id], r.value.proposals[id];
              && p'.votesFor == p.votesFor + (if choice then 1 else 0)
              && p'.votesAgainst == p.votesAgainst + (if choice then 0 else 1)
              && p' == p.(votesFor := p'.votesFor, votesAgainst := p'.votesAgainst)
    ensures r.Ok? ==> forall i :: i in s.proposals && i != id ==> r.value.proposals[i] == s.proposals[i]
    ensures r.Ok? ==> forall k :: k in s.votes ==> r.value.votes[k] == s.votes[k]
  {
    if id !in s.proposals || height >= s.proposals[id].endBlock then Err(InvalidOrExpired)
    else if (id, sender) in s.votes then Err(AlreadyVoted)
    else
      var p := s.proposals[id];
      var p' := if choice then p.(votesFor := p.votesFor + 1) else p.(votesAgainst := p.votesAgainst + 1);
      Ok(s.(votes := s.votes[(id, sender) := choice], proposals := s.proposals[id := p']))
  }

  /** end-proposal: anyone may resolve an Active proposal at or past its end
      block, once; it passes only when the votes for strictly outnumber the
      votes against, so a tie is rejected. */
  function EndProposalResult(s: Store, id: nat, height: nat): (r: Result<Store, GovError>)
    ensures r.Err? <==> id !in s.proposals || height < s.proposals[id].endBlock || s.proposals[id].status != Active
    ensures r.Err? ==> r.error == InvalidOrNotEnded
    ensures r.Ok? ==>
              var p := s.proposals[id];
              && id in r.value.proposals
              && r.value.proposals[id].status == (if p.votesFor > p.votesAgainst then Passed else Rejected)
              && r.value.proposals[id] == p.(status := r.value.proposals[id].status)
    ensures r.Ok? ==> r.value.proposals.Keys == s.proposals.Keys && r.value.votes == s.votes && r.value.nonce == s.nonce
    ensures r.Ok? ==> forall i :: i in s.proposals && i != id ==> r.value.proposals[i] == s.proposals[i]
  {
    if id !in s.proposals || height < s.proposals[id].endBlock || s.proposals[id].status != Active then
      Err(InvalidOrNotEnded)
    else
      var p := s.proposals[id];
      Ok(s.(proposals := s.proposals[id := p.(status := if p.votesFor > p.votesAgainst then Passed else Rejected)]))
  }

  /** get-proposal: absent for an unknown id. */
  function GetProposalResult(s: Store, id: nat): (r: Option<Proposal>)
    ensures r.Some? <==> id in s.proposals
    ensures r.Some? ==> r.value == s.proposals[id]
  {
    if id in s.proposals then Some(s.proposals[id]) else None
  }

  /** get-vote: absent when this voter has no record for this proposal. */
  function GetVoteResult(s: Store, id: nat, voter: Principal): (r: Option<bool>)
    ensures r.Some? <==> (id, voter) in s.votes
    ensures r.Some? ==> r.value == s.votes[(id, voter)]
  {
    if (id, voter) in s.votes then Some(s.votes[(id, voter)]) else None
  }

  // ---------------------------------------------------------------------
  // The invariant is kept by every call

  lemma InitialInv()
    ensures Inv(Initial())
  {
  }

  /** Under the invariant a new proposal takes an id never used before and
      keeps the invariant. */
  lemma CreateProposalKeepsInv(s: Store, description: string, votingPeriod: nat, sender: Principal, height: nat)
    requires Inv(s)
    ensures CreateProposalResult(s, description, votingPeriod, sender, height).0 !in s.proposals
    ensures Inv(CreateProposalResult(s, description, votingPeriod, sender, height).1)
  {
  }

  /** A recorded vote adds one record to exactly one of the proposal's two
      ballot sets and leaves every other set as it was. */
  lemma BallotsAfterVote(votes: map<VoteKey, bool>, id: nat, sender: Principal, choice: bool, i: nat, c: bool)
    requires (id, sender) !in votes
    ensures Ballots(votes[(id, sender) := choice], i, c) ==
            if i == id && c == choice then Ballots(votes, i, c) + {(id, sender)} else Ballots(votes, i, c)
  {
  }

  lemma VoteKeepsInv(s: Store, id: nat, choice: bool, sender: Principal, height: nat)
    requires Inv(s)
    requires VoteResult(s, id, choice, sender, height).Ok?
    ensures Inv(VoteResult(s, id, choice, sender, height).value)
  {
    var s' := VoteResult(s, id, choice, sender, height).value;
    forall i | i in s'.proposals
      ensures s'.proposals[i].votesFor == |Ballots(s'.votes, i, true)|
      ensures s'.proposals[i].votesAgainst == |Ballots(s'.votes, i, false)|
    {
      BallotsAfterVote(s.votes, id, sender, choice, i, true);
      BallotsAfterVote(s.votes, id, sender, choice, i, false);
    }
  }

  lemma EndProposalKeepsInv(s: Store, id: nat, height: nat)
    requires Inv(s)
    requires EndProposalResult(s, id, height).Ok?
    ensures Inv(EndProposalResult(s, id, height).value)
  {
  }

  // ---------------------------------------------------------------------
  // Properties relating several calls

  /** The number of voters on a proposal is the sum of its tallies. */
  lemma TalliesCountVoters(s: Store, id: nat)
    requires Inv(s) && id in s.proposals
    ensures s.proposals[id].votesFor + s.proposals[id].votesAgainst ==
            |set k | k in s.votes && k.0 == id|
  {
    var all := set k | k in s.votes && k.0 == id;
    assert all == Ballots(s.votes, id, true) + Ballots(s.votes, id, false);
    assert Ballots(s.votes, id, true) !! Ballots(s.votes, id, false);
  }

  /** One call of any kind, with the height at which it runs. */
  datatype Call =
    | CreateProposalCall(description: string, votingPeriod: nat, sender: Principal, height: nat)
    | VoteCall(id: nat, choice: bool, sender: Principal, height: nat)
    | EndProposalCall(id: nat, height: nat)

  function Apply(s: Store, c: Call): (s': Store)
  {
    match c
    case CreateProposalCall(description, votingPeriod, sender, height) =>
      CreateProposalResult(s, description, votingPeriod, sender, height).1
    case VoteCall(id, choice, sender, height) =>
      var r := VoteResult(s, id, choice, sender, height);
      if r.Ok? then r.value else s
    case EndProposalCall(id, height) =>
      var r := EndProposalResult(s, id, height);
      if r.Ok? then r.value else s
  }

  lemma ApplyKeepsInv(s: Store, c: Call)
    requires Inv(s)
    ensures Inv(Apply(s, c))
  {
    match c {
      case CreateProposalCall(description, votingPeriod, sender, height) =>
        CreateProposalKeepsInv(s, description, votingPeriod, sender, height);
      case VoteCall(id, choice, sender, height) =>
        if VoteResult(s, id, choice, sender, height).Ok? {
          VoteKeepsInv(s, id, choice, sender, height);
        }
      case EndProposalCall(id, height) =>
        if EndProposalResult(s, id, height).Ok? {
          EndProposalKeepsInv(s, id, height);
        }
    }
  }

  /** Under the invariant one call never removes a proposal, never moves its
      end block, never changes a resolved status, and never removes or
      changes a vote record. */
  lemma ApplyKeepsRecords(s: Store, c: Call, id: nat)
    requires Inv(s) && id in s.proposals
    ensures id in Apply(s, c).proposals
    ensures Apply(s, c).proposals[id].endBlock == s.proposals[id].endBlock
    ensures s.proposals[id].status != Active ==> Apply(s, c).proposals[id].status == s.proposals[id].status
    ensures forall k :: k in s.votes ==> k in Apply(s, c).votes && Apply(s, c).votes[k] == s.votes[k]
  {
    if c.CreateProposalCall? {
      CreateProposalKeepsInv(s, c.description, c.votingPeriod, c.sender, c.height);
    }
  }

  /** The store after a history of calls; a failed call leaves it as it was. */
  function Run(s: Store, calls: seq<Call>): (s': Store)
    decreases |calls|
  {
    if calls == [] then s else Run(Apply(s, calls[0]), calls[1..])
  }

  /** Every store reachable from the initial one satisfies the invariant:
      ids 1 through the nonce exist and no others, and the tallies count
      the vote records. */
  lemma {:induction false} RunKeepsInv(s: Store, calls: seq<Call>)
    requires Inv(s)
    ensures Inv(Run(s, calls))
    decreases |calls|
  {
    if calls != [] {
      ApplyKeepsInv(s, calls[0]);
      RunKeepsInv(Apply(s, calls[0]), calls[1..]);
    }
  }

  /** Whatever history of calls follows, a proposal stays stored with the
      same end block, a resolved status stays as it was resolved, and every
      vote record stays with the same choice. */
  lemma {:induction false} RunKeepsRecords(s: Store, calls: seq<Call>, id: nat)
    requires Inv(s) && id in s.proposals
    ensures id in Run(s, calls).proposals
    ensures Run(s, calls).proposals[id].endBlock == s.proposals[id].endBlock
    ensures s.proposals[id].status != Active ==> Run(s, calls).proposals[id].status == s.proposals[id].status
    ensures forall k :: k in s.votes ==> k in Run(s, calls).votes && Run(s, calls).votes[k] == s.votes[k]
    decreases |calls|
  {
    if calls != [] {
      ApplyKeepsRecords(s, calls[0], id);
      ApplyKeepsInv(s, calls[0]);
      RunKeepsRecords(Apply(s, calls[0]), calls[1..], id);
    }
  }

  /** After a successful vote, any later vote by the same voter on that
      proposal fails whatever either choice was and whatever calls came in
      between: with AlreadyVoted while the window is open, and because of
      the height once it is closed. */
  lemma SecondVoteFails(s: Store, id: nat, choice: bool, sender: Principal, height: nat,
                        calls: seq<Call>, choice': bool, height': nat)
    requires Inv(s)
    requires VoteResult(s, id, choice, sender, height).Ok?
    ensures var s' := Run(VoteResult(s, id, choice, sender, height).value, calls);
            VoteResult(s', id, choice', sender, height') ==
              if height' < s.proposals[id].endBlock then Err(AlreadyVoted) else Err(InvalidOrExpired)
  {
    VoteKeepsInv(s, id, choice, sender, height);
    RunKeepsRecords(VoteResult(s, id, choice, sender, height).value, calls, id);
  }

  /** A resolved proposal cannot be resolved again, at any height and after
      any history of calls. */
  lemma EndProposalOnce(s: Store, id: nat, height: nat, calls: seq<Call>, height': nat)
    requires Inv(s)
    requires EndProposalResult(s, id, height).Ok?
    ensures EndProposalResult(Run(EndProposalResult(s, id, height).value, calls), id, height') == Err(InvalidOrNotEnded)
  {
    EndProposalKeepsInv(s, id, height);
    RunKeepsRecords(EndProposalResult(s, id, height).value, calls, id);
  }

  /** With a block height that never goes back, nobody can vote on a
      proposal once it has been resolved, whatever calls come in between. */
  lemma NoVoteAfterEnd(s: Store, id: nat, height: nat, calls: seq<Call>, choice: bool, voter: Principal, height': nat)
    requires Inv(s)
    requires EndProposalResult(s, id, height).Ok?
    requires height <= height'
    ensures VoteResult(Run(EndProposalResult(s, id, height).value, calls), id, choice, voter, height') == Err(InvalidOrExpired)
  {
    EndProposalKeepsInv(s, id, height);
    RunKeepsRecords(EndProposalResult(s, id, height).value, calls, id);
  }

  /** Nothing stops the block height from going back, and `vote` checks only
      the height: a proposal resolved as Rejected at its end block still takes
      a vote made at an earlier height, and its tally then moves while its
      status stays Rejected. */
  lemma ResolvedProposalStillTakesVotes()
    ensures var s := Run(Initial(), [CreateProposalCall("d", 100, "u1", 0), EndProposalCall(1, 100), VoteCall(1, true, "u2", 50)]);
            1 in s.proposals && s.proposals[1].status == Rejected && s.proposals[1].votesFor == 1
  {
    var created := CreateProposalResult(Initial(), "d", 100, "u1", 0).1;
    var ended := EndProposalResult(created, 1, 100).value;
    assert ended.proposals[1].status == Rejected;
    var voted := VoteResult(ended, 1, true, "u2", 50);
    assert voted.Ok?;
  }

  // ---------------------------------------------------------------------
  // The contract as a mutable store

  class Governance {
    var proposals: map<nat, Proposal>
    var votes: map<VoteKey, bool>
    var proposalNonce: nat

    function Snapshot(): (s: Store)
      reads this
    {
      Store(proposals, votes, proposalNonce)
    }

    ghost predicate Valid()
      reads this
    {
      Inv(Snapshot())
    }

    constructor ()
      ensures Valid() && Snapshot() == Initial()
    {
      proposals := map[];
      votes := map[];
      proposalNonce := 0;
    }

    method CreateProposal(description: string, votingPeriod: nat, sender: Principal, height: nat) returns (id: nat)
      requires Valid()
      modifies this
      ensures Valid()
      ensures (id, Snapshot()) == CreateProposalResult(old(Snapshot()), description, votingPeriod, sender, height)
      ensures id == old(proposalNonce) + 1 && id !in old(proposals)
    {
      CreateProposalKeepsInv(Snapshot(), description, votingPeriod, sender, height);
      proposalNonce := proposalNonce + 1;
      proposals := proposals[proposalNonce := Proposal(sender, description, 0, 0, Active, height + votingPeriod)];
      id := proposalNonce;
    }

    method Vote(id: nat, choice: bool, sender: Principal, height: nat) returns (r: Reply<GovError>)
      requires Valid()
      modifies this
      ensures Valid()
      ensures match VoteResult(old(Snapshot()), id, choice, sender, height)
              case Ok(s) => r == Pass && Snapshot() == s
              case Err(e) => r == Fail(e) && Snapshot() == old(Snapshot())
    {
      if id !in proposals || height >= proposals[id].endBlock {
        return Fail(InvalidOrExpired);
      }
      if (id, sender) in votes {
        return Fail(AlreadyVoted);
      }
      VoteKeepsInv(Snapshot(), id, choice, sender, height);
      votes := votes[(id, sender) := choice];
      var p := proposals[id];
      if choice {
        p := p.(votesFor := p.votesFor + 1);
      } else {
        p := p.(votesAgainst := p.votesAgainst + 1);
      }
      proposals := proposals[id := p];
      return Pass;
    }

    method EndProposal(id: nat, height: nat) returns (r: Reply<GovError>)
      requires Valid()
      modifies this
      ensures Valid()
      ensures match EndProposalResult(old(Snapshot()), id, height)
              case Ok(s) => r == Pass && Snapshot() == s
              case Err(e) => r == Fail(e) && Snapshot() == old(Snapshot())
    {
      if id !in proposals || height < proposals[id].endBlock || proposals[id].status != Active {
        return Fail(InvalidOrNotEnded);
      }
      EndProposalKeepsInv(Snapshot(), id, height);
      var p := proposals[id];
      p := p.(status := if p.votesFor > p.votesAgainst then Passed else Rejected);
      proposals := proposals[id := p];
      return Pass;
    }

    method GetProposal(id: nat) returns (r: Option<Proposal>)
      ensures r == GetProposalResult(Snapshot(), id)
    {
      r := GetProposalResult(Snapshot(), id);
    }

    method GetVote(id: nat, voter: Principal) returns (r: Option<bool>)
      ensures r == GetVoteResult(Snapshot(), id, voter)
    {
      r := GetVoteResult(Snapshot(), id, voter);
    }
  }

  /** "user1" proposes with a voting period of 100 at height 0 and gets id 1;
      "user2" votes for, a second vote by "user2" is refused, "user3" votes
      against, and at height 101 the proposal resolves: the 1-1 tie is
      Rejected and the description and vote read back as stored. */
  method ProposalScenario() returns (id: nat, first: Reply<GovError>, again: Reply<GovError>, against: Reply<GovError>,
                                   ended: Reply<GovError>, p: Option<Proposal>, v: Option<bool>)
    ensures id == 1 && first == Pass && again == Fail(AlreadyVoted) && against == Pass && ended == Pass
    ensures p.Some? && p.value.description == "Increase time credit minting rate"
    ensures p.value.votesFor == 1 && p.value.votesAgainst == 1 && p.value.status == Rejected
    ensures v == Some(true)
  {
    var gov := new Governance();
    var created := Proposal("user1", "Increase time credit minting rate", 0, 0, Active, 100);
    id := gov.CreateProposal("Increase time credit minting rate", 100, "user1", 0);
    assert gov.proposals == map[1 := created] && gov.votes == map[];
    first := gov.Vote(1, true, "user2", 0);
    assert gov.proposals == map[1 := created.(votesFor := 1)];
    assert gov.votes == map[(1, "user2") := true];
    again := gov.Vote(1, false, "user2", 0);
    against := gov.Vote(1, false, "user3", 0);
    assert gov.proposals == map[1 := created.(votesFor := 1, votesAgainst := 1)];
    assert (1, "user2") in gov.votes && gov.votes[(1, "user2")];
    ended := gov.EndProposal(1, 101);
    p := gov.GetProposal(1);
    v := gov.GetVote(1, "user2");
  }
}
