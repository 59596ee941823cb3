/** The governance contract: storage as fields, each entry point as a method that checks in the
    order the contract does and then writes.  Each is proved to be the step of the model. */
module GovernanceContract {
  import opened Host
  import opened Roots
  import opened GovernanceModel
  import GovernanceLifecycle

  class Governance {
    var admin: Address
    var pendingAdmin: Option<Address>
    var credits: map<Address, int>
    var totalCreditsIssued: int
    var minQuorumBps: nat
    var proposalCounter: nat
    var proposals: map<nat, Proposal>
    var records: map<VoteKey, VoteRecord>

    function View(): Gov
      reads this
    {
      Gov(admin, pendingAdmin, credits, totalCreditsIssued, minQuorumBps, proposalCounter, proposals, records)
    }

    constructor (admin: Address)
      ensures View() == Fresh(admin)
    {
      this.admin, pendingAdmin := admin, None;
      credits, proposals, records := map[], map[], map[];
      totalCreditsIssued, proposalCounter := 0, 0;
      minQuorumBps := DEFAULT_MIN_QUORUM_BPS;
    }

    method ProposeNewAdmin(caller: Address, newAdmin: Address) returns (r: Result<(), Error>)
      modifies this`pendingAdmin
      ensures View() == After(old(View()), GovernanceModel.ProposeNewAdmin(old(View()), caller, newAdmin))
      ensures r == Answer(GovernanceModel.ProposeNewAdmin(old(View()), caller, newAdmin))
    {
      if caller != admin {
        return Err(Unauthorized);
      }
      pendingAdmin := Some(newAdmin);
      return Ok(());
    }

    method ClaimAdminRole(caller: Address) returns (r: Result<(), Error>)
      modifies this`admin, this`pendingAdmin
      ensures View() == After(old(View()), GovernanceModel.ClaimAdminRole(old(View()), caller))
      ensures r == Answer(GovernanceModel.ClaimAdminRole(old(View()), caller))
    {
      if !pendingAdmin.Some? {
        return Err(NoPendingAdmin);
      }
      :- Need(caller == pendingAdmin.value, Unauthorized);
      admin, pendingAdmin := caller, None;
      return Ok(());
    }

    method AllocateCredits(caller: Address, user: Address, amount: int) returns (r: Result<(), Error>)
      modifies this`credits, this`totalCreditsIssued
      ensures View() == After(old(View()), GovernanceModel.AllocateCredits(old(View()), caller, user, amount))
      ensures r == Answer(GovernanceModel.AllocateCredits(old(View()), caller, user, amount))
    {
      if caller != admin {
        return Err(Unauthorized);
      }
      :- Need(amount >= 0, NegativeCredits);
      var current := if user in credits then credits[user] else 0;
      var newCredits :- Checked(current + amount, Overflow);
      var issued :- Checked(totalCreditsIssued + amount, Overflow);
      credits := credits[user := newCredits];
      totalCreditsIssued := issued;
      return Ok(());
    }

    method SetMinQuorumBps(caller: Address, bps: nat) returns (r: Result<(), Error>)
      modifies this`minQuorumBps
      ensures View() == After(old(View()), GovernanceModel.SetMinQuorumBps(old(View()), caller, bps))
      ensures r == Answer(GovernanceModel.SetMinQuorumBps(old(View()), caller, bps))
    {
      if caller != admin {
        return Err(Unauthorized);
      }
      :- Need(0 < bps <= BPS_DENOMINATOR, InvalidQuorum);
      minQuorumBps := bps;
      return Ok(());
    }

    method CreateProposal(creator: Address, votingPeriod: nat, now: nat, ledger: nat) returns (r: Result<nat, Error>)
      modifies this`proposals, this`proposalCounter
      ensures View() == After(old(View()), GovernanceModel.CreateProposal(old(View()), creator, votingPeriod, now, ledger))
      ensures r == Answer(GovernanceModel.CreateProposal(old(View()), creator, votingPeriod, now, ledger))
    {
      if votingPeriod <= 0 {
        return Err(VotingPeriodNotPositive);
      }
      if votingPeriod < MIN_TIMELOCK || votingPeriod > MAX_TIMELOCK {
        return Err(InvalidTimelockDuration);
      }
      :- Need(proposalCounter < U32_MAX, Overflow);
      var newId := proposalCounter + 1;
      var quorum :- QuorumForCredits(totalCreditsIssued, minQuorumBps);
      :- Need(now + votingPeriod <= U64_MAX, Overflow);
      proposals := proposals[newId := Proposal(creator, 0, 0, 0, 0, now, now + votingPeriod, OPEN, quorum, ledger)];
      proposalCounter := newId;
      return Ok(newId);
    }

    method CancelProposal(caller: Address, id: nat, now: nat) returns (r: Result<(), Error>)
      modifies this`proposals
      ensures View() == After(old(View()), GovernanceModel.CancelProposal(old(View()), caller, id, now))
      ensures r == Answer(GovernanceModel.CancelProposal(old(View()), caller, id, now))
    {
      var proposal :- Lookup(View(), id);
      :- Need(proposal.creator == caller, Unauthorized);
      :- Need(proposal.status == OPEN, NotOpen);
      :- Need(now < proposal.deadline, VotingEnded);
      proposals := proposals[id := proposal.(status := CANCELLED)];
      return Ok(());
    }

    method Vote(voter: Address, id: nat, support: bool, votes: int, now: nat, pastBalance: int) returns (r: Result<(), Error>)
      modifies this`proposals, this`records, this`credits
      ensures View() == After(old(View()), GovernanceModel.Vote(old(View()), voter, id, support, votes, now, pastBalance))
      ensures r == Answer(GovernanceModel.Vote(old(View()), voter, id, support, votes, now, pastBalance))
    {
      if votes <= 0 {
        return Err(VotesNotPositive);
      }
      var proposal :- Lookup(View(), id);
      :- Need(proposal.status == OPEN, NotOpen);
      :- Need(now < proposal.deadline, VotingEnded);
      if (id, voter) in records {
        return Err(AlreadyVoted);
      }
      var quadraticCost :- Checked(votes * votes, CostOverflow);
      var userCredits := if voter in credits then credits[voter] else DEFAULT_VOTING_CREDITS;
      :- Need(userCredits >= quadraticCost, InsufficientCredits);
      :- Need(pastBalance >= quadraticCost, InsufficientSnapshotBalance);
      if support {
        var sum :- Checked(proposal.votesFor + votes, Overflow);
        proposal := proposal.(votesFor := sum);
      } else {
        var sum :- Checked(proposal.votesAgainst + votes, Overflow);
        proposal := proposal.(votesAgainst := sum);
      }
      var cost :- Checked(proposal.totalQuadraticCost + quadraticCost, Overflow);
      :- Need(proposal.voterCount < U32_MAX, Overflow);
      proposal := proposal.(totalQuadraticCost := cost, voterCount := proposal.voterCount + 1);
      records := records[(id, voter) := VoteRecord(votes, quadraticCost, support)];
      credits := credits[voter := userCredits - quadraticCost];
      proposals := proposals[id := proposal];
      return Ok(());
    }

    method HasPassed(id: nat, now: nat) returns (r: Result<bool, Error>)
      modifies this`proposals
      ensures View() == After(old(View()), GovernanceModel.HasPassed(old(View()), id, now))
      ensures r == Answer(GovernanceModel.HasPassed(old(View()), id, now))
    {
      var proposal :- Lookup(View(), id);
      if proposal.status == OPEN {
        if now < proposal.deadline {
          return Err(VotingNotEnded);
        }
        proposal := proposal.(status := CLOSED);
      }
      :- Need(proposal.status != EXECUTED, AlreadyExecuted);
      var quorate :- MeetsQuorum(View(), proposal);
      // nothing is written before this point because a panic above rolls the closing back
      proposals := proposals[id := proposal];
      return Ok(quorate && proposal.votesFor > proposal.votesAgainst);
    }

    method ExecuteProposal(executor: Address, id: nat, now: nat) returns (r: Result<(), Error>)
      modifies this`proposals
      ensures View() == After(old(View()), GovernanceModel.ExecuteProposal(old(View()), executor, id, now))
      ensures r == Answer(GovernanceModel.ExecuteProposal(old(View()), executor, id, now))
    {
      var proposal :- Lookup(View(), id);
      :- Need(executor == admin || executor == proposal.creator, Unauthorized);
      if proposal.status == OPEN {
        if now < proposal.deadline {
          return Err(VotingNotEnded);
        }
        proposal := proposal.(status := CLOSED);
      }
      :- Need(proposal.status == CLOSED, NotClosed);
      var quorate :- MeetsQuorum(View(), proposal);
      :- Need(quorate, QuorumNotMet);
      :- Need(proposal.votesFor > proposal.votesAgainst, DidNotPass);
      proposals := proposals[id := proposal.(status := EXECUTED)];
      return Ok(());
    }

    method MaxVotes(user: Address) returns (votes: int)
      requires 0 <= CreditsOf(View(), user) <= I128_MAX
      ensures votes == GovernanceLifecycle.MaxVotesFor(CreditsOf(View(), user))
    {
      votes := CreditRoot(CreditsOf(View(), user));
    }
  }
}
