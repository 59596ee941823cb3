/** Quadratic-voting governance as a state machine over timed calls. */
module GovernanceModel {
  import opened Host

  const DEFAULT_VOTING_CREDITS := 10_000
  const DEFAULT_MIN_QUORUM_BPS := 2_000
  const BPS_DENOMINATOR := 10_000
  const MIN_TIMELOCK := 86_400
  const MAX_TIMELOCK := 1_209_600

  datatype Error =
    | Unauthorized
    | NoPendingAdmin
    | NegativeCredits
    | InvalidQuorum
    | VotingPeriodNotPositive
    | InvalidTimelockDuration
    | ProposalNotFound
    | NotOpen
    | VotingEnded
    | VotingNotEnded
    | VotesNotPositive
    | AlreadyVoted
    | CostOverflow
    | InsufficientCredits
    | InsufficientSnapshotBalance
    | AlreadyExecuted
    | NotClosed
    | QuorumNotMet
    | DidNotPass
    | Overflow

  datatype Status = OPEN | CLOSED | EXECUTED | CANCELLED

  datatype Proposal = Proposal(
    creator: Address,
    votesFor: int,
    votesAgainst: int,
    totalQuadraticCost: int,
    voterCount: nat,
    createdAt: nat,
    deadline: nat,
    status: Status,
    quorum: int,
    createdAtLedger: nat)

  datatype VoteRecord = VoteRecord(votes: int, quadraticCost: int, support: bool)

  /** A vote record is stored under the proposal and the voter. */
  type VoteKey = (nat, Address)

  datatype Gov = Gov(
    admin: Address,
    pendingAdmin: Option<Address>,
    credits: map<Address, int>,
    totalCreditsIssued: int,
    minQuorumBps: nat,
    proposalCounter: nat,
    proposals: map<nat, Proposal>,
    records: map<VoteKey, VoteRecord>)

  function Fresh(admin: Address): Gov {
    Gov(admin, None, map[], 0, DEFAULT_MIN_QUORUM_BPS, 0, map[], map[])
  }

  // ---- quorum ----

  /** `quorum_for_credits`: a rounded-up share of the credits issued, and never less than 1. */
  function QuorumForCredits(totalCredits: int, bps: nat): Result<int, Error> {
    var scaled :- Checked(totalCredits * bps, Overflow);
    Ok(Max(Quot(scaled, BPS_DENOMINATOR) + (if scaled > 0 && scaled % BPS_DENOMINATOR > 0 then 1 else 0), 1))
  }

  function RequiredQuorum(g: Gov, p: Proposal): Result<int, Error> {
    var current :- QuorumForCredits(g.totalCreditsIssued, g.minQuorumBps);
    Ok(Max(current, p.quorum))
  }

  function MeetsQuorum(g: Gov, p: Proposal): Result<bool, Error> {
    var total :- Checked(p.votesFor + p.votesAgainst, Overflow);
    var required :- RequiredQuorum(g, p);
    Ok(total >= required)
  }

  function Lookup(g: Gov, id: nat): Result<Proposal, Error> {
    if id in g.proposals then Ok(g.proposals[id]) else Err(ProposalNotFound)
  }

  function CreditsOf(g: Gov, user: Address): int {
    GetOr(g.credits, user, DEFAULT_VOTING_CREDITS)
  }

  // ---- entry points ----

  function ProposeNewAdmin(g: Gov, caller: Address, newAdmin: Address): Result<(Gov, ()), Error> {
    if caller != g.admin then Err(Unauthorized) else
    Ok((g.(pendingAdmin := Some(newAdmin)), ()))
  }

  function ClaimAdminRole(g: Gov, caller: Address): Result<(Gov, ()), Error> {
    if !g.pendingAdmin.Some? then Err(NoPendingAdmin) else
    :- Need(caller == g.pendingAdmin.value, Unauthorized);
    Ok((g.(admin := caller, pendingAdmin := None), ()))
  }

  function AllocateCredits(g: Gov, caller: Address, user: Address, credits: int): Result<(Gov, ()), Error> {
    if caller != g.admin then Err(Unauthorized) else
    :- Need(credits >= 0, NegativeCredits);
    var held :- Checked(GetOr(g.credits, user, 0) + credits, Overflow);
    var issued :- Checked(g.totalCreditsIssued + credits, Overflow);
    Ok((g.(credits := g.credits[user := held], totalCreditsIssued := issued), ()))
  }

  function SetMinQuorumBps(g: Gov, caller: Address, bps: nat): Result<(Gov, ()), Error> {
    if caller != g.admin then Err(Unauthorized) else
    :- Need(0 < bps <= BPS_DENOMINATOR, InvalidQuorum);
    Ok((g.(minQuorumBps := bps), ()))
  }

  function CreateProposal(g: Gov, creator: Address, votingPeriod: nat, now: nat, ledger: nat): Result<(Gov, nat), Error> {
    if votingPeriod <= 0 then Err(VotingPeriodNotPositive) else
    :- Need(MIN_TIMELOCK <= votingPeriod <= MAX_TIMELOCK, InvalidTimelockDuration);
    :- Need(g.proposalCounter < U32_MAX, Overflow);
    var id := g.proposalCounter + 1;
    var quorum :- QuorumForCredits(g.totalCreditsIssued, g.minQuorumBps);
    :- Need(now + votingPeriod <= U64_MAX, Overflow);
    var p := Proposal(creator, 0, 0, 0, 0, now, now + votingPeriod, OPEN, quorum, ledger);
    Ok((g.(proposals := g.proposals[id := p], proposalCounter := id), id))
  }

  function CancelProposal(g: Gov, caller: Address, id: nat, now: nat): Result<(Gov, ()), Error> {
    var p :- Lookup(g, id);
    :- Need(p.creator == caller, Unauthorized);
    :- Need(p.status == OPEN, NotOpen);
    :- Need(now < p.deadline, VotingEnded);
    Ok((g.(proposals := g.proposals[id := p.(status := CANCELLED)]), ()))
  }

  /** `vote`: `pastBalance` is what the token contract reports for the proposal's creation ledger. */
  function Vote(g: Gov, voter: Address, id: nat, support: bool, votes: int, now: nat, pastBalance: int): Result<(Gov, ()), Error> {
    if votes <= 0 then Err(VotesNotPositive) else
    var p :- Lookup(g, id);
    :- Need(p.status == OPEN, NotOpen);
    :- Need(now < p.deadline, VotingEnded);
    :- Need((id, voter) !in g.records, AlreadyVoted);
    var cost :- Checked(votes * votes, CostOverflow);
    :- Need(CreditsOf(g, voter) >= cost, InsufficientCredits);
    :- Need(pastBalance >= cost, InsufficientSnapshotBalance);
    var tally :- Checked((if support then p.votesFor else p.votesAgainst) + votes, Overflow);
    var total :- Checked(p.totalQuadraticCost + cost, Overflow);
    :- Need(p.voterCount < U32_MAX, Overflow);
    var counted := if support then p.(votesFor := tally) else p.(votesAgainst := tally);
    Ok((g.(proposals := g.proposals[id := counted.(totalQuadraticCost := total, voterCount := p.voterCount + 1)],
           records := g.records[(id, voter) := VoteRecord(votes, cost, support)],
           credits := g.credits[voter := CreditsOf(g, voter) - cost]), ()))
  }

  /** Both verdict functions first close a proposal whose voting period is over. */
  function Close(p: Proposal, now: nat): Result<Proposal, Error> {
    if p.status != OPEN then Ok(p)
    else if now < p.deadline then Err(VotingNotEnded)
    else Ok(p.(status := CLOSED))
  }

  function HasPassed(g: Gov, id: nat, now: nat): Result<(Gov, bool), Error> {
    var p :- Lookup(g, id);
    var closed :- Close(p, now);
    :- Need(closed.status != EXECUTED, AlreadyExecuted);
    var quorate :- MeetsQuorum(g, closed);
    Ok((g.(proposals := g.proposals[id := closed]), quorate && closed.votesFor > closed.votesAgainst))
  }

  function ExecuteProposal(g: Gov, executor: Address, id: nat, now: nat): Result<(Gov, ()), Error> {
    var p :- Lookup(g, id);
    :- Need(executor == g.admin || executor == p.creator, Unauthorized);
    var closed :- Close(p, now);
    :- Need(closed.status == CLOSED, NotClosed);
    var quorate :- MeetsQuorum(g, closed);
    :- Need(quorate, QuorumNotMet);
    :- Need(closed.votesFor > closed.votesAgainst, DidNotPass);
    Ok((g.(proposals := g.proposals[id := closed.(status := EXECUTED)]), ()))
  }

  // ---- runs ----

  datatype Call =
    | ProposeNewAdminCall(caller: Address, newAdmin: Address)
    | ClaimAdminRoleCall(caller: Address)
    | AllocateCall(caller: Address, user: Address, credits: int)
    | SetMinQuorumBpsCall(caller: Address, bps: nat)
    | CreateCall(creator: Address, votingPeriod: nat, ledger: nat)
    | CancelCall(caller: Address, id: nat)
    | VoteCall(voter: Address, id: nat, support: bool, votes: int, pastBalance: int)
    | HasPassedCall(id: nat)
    | ExecuteCall(executor: Address, id: nat)

  /** A call made when the ledger clock shows `now`. */
  datatype Event = Event(now: nat, call: Call)

  function Step(g: Gov, e: Event): Gov {
    match e.call
    case ProposeNewAdminCall(caller, a) => After(g, ProposeNewAdmin(g, caller, a))
    case ClaimAdminRoleCall(caller) => After(g, ClaimAdminRole(g, caller))
    case AllocateCall(caller, user, credits) => After(g, AllocateCredits(g, caller, user, credits))
    case SetMinQuorumBpsCall(caller, bps) => After(g, SetMinQuorumBps(g, caller, bps))
    case CreateCall(creator, period, ledger) => After(g, CreateProposal(g, creator, period, e.now, ledger))
    case CancelCall(caller, id) => After(g, CancelProposal(g, caller, id, e.now))
    case VoteCall(voter, id, support, votes, balance) => After(g, Vote(g, voter, id, support, votes, e.now, balance))
    case HasPassedCall(id) => After(g, HasPassed(g, id, e.now))
    case ExecuteCall(executor, id) => After(g, ExecuteProposal(g, executor, id, e.now))
  }

  function Run(g: Gov, events: seq<Event>): Gov {
    if events == [] then g else Step(Run(g, events[..|events| - 1]), events[|events| - 1])
  }
}
