/** When each governance call goes through and what it then leaves. */
module GovernanceOutcomes {
  import opened Host
  import opened Arith
  import opened GovernanceModel
  import opened GovernanceTallies
  import opened GovernanceLifecycle

  // ---- roles, credits and settings ----

  lemma ProposeNewAdminOutcome(g: Gov, caller: Address, newAdmin: Address)
    ensures var r := ProposeNewAdmin(g, caller, newAdmin);
      (r.Ok? <==> caller == g.admin) && (r.Ok? ==> r.value.0 == g.(pendingAdmin := Some(newAdmin)))
  {
  }

  lemma ClaimAdminRoleOutcome(g: Gov, caller: Address)
    ensures var r := ClaimAdminRole(g, caller);
      (r.Ok? <==> g.pendingAdmin == Some(caller)) && (r.Ok? ==> r.value.0 == g.(admin := caller, pendingAdmin := None))
  {
  }

  /** The admin at some point of the run named this candidate. */
  ghost predicate Nominated(g: Gov, events: seq<Event>, candidate: Address) {
    exists i: nat :: i < |events| && events[i].call == ProposeNewAdminCall(Run(g, events[..i]).admin, candidate)
  }

  lemma AdminStep(g: Gov, e: Event)
    ensures Step(g, e).admin != g.admin ==> g.pendingAdmin == Some(Step(g, e).admin) && e.call == ClaimAdminRoleCall(Step(g, e).admin)
    ensures Step(g, e).pendingAdmin == g.pendingAdmin || Step(g, e).pendingAdmin == None
            || (e.call.ProposeNewAdminCall? && e.call.caller == g.admin && Step(g, e).pendingAdmin == Some(e.call.newAdmin))
  {
    match e.call
    case VoteCall(voter, id, support, votes, balance) =>
    case CreateCall(creator, period, ledger) =>
    case HasPassedCall(id) =>
    case ExecuteCall(executor, id) =>
    case _ =>
  }

  lemma NominatedStays(g: Gov, events: seq<Event>, e: Event, candidate: Address)
    requires Nominated(g, events, candidate)
    ensures Nominated(g, events + [e], candidate)
  {
    var i: nat :| i < |events| && events[i].call == ProposeNewAdminCall(Run(g, events[..i]).admin, candidate);
    assert (events + [e])[..i] == events[..i] && (events + [e])[i] == events[i];
  }

  lemma NominatedNow(g: Gov, events: seq<Event>, e: Event, candidate: Address)
    requires e.call == ProposeNewAdminCall(Run(g, events).admin, candidate)
    ensures Nominated(g, events + [e], candidate)
  {
    assert (events + [e])[..|events|] == events && (events + [e])[|events|] == e;
  }

  /** In every reachable state the admin, and whoever is about to be, is the first admin or was
      nominated by an admin. */
  lemma {:induction false} AdminsAreNominated(first: Address, events: seq<Event>)
    ensures var g := Fresh(first);
      && (Run(g, events).admin == first || Nominated(g, events, Run(g, events).admin))
      && (Run(g, events).pendingAdmin.Some? ==> Nominated(g, events, Run(g, events).pendingAdmin.value))
  {
    var g := Fresh(first);
    if events != [] {
      var init, last := events[..|events| - 1], events[|events| - 1];
      assert events == init + [last];
      AdminsAreNominated(first, init);
      AdminStep(Run(g, init), last);
      if Run(g, init).admin != first { NominatedStays(g, init, last, Run(g, init).admin); }
      if Run(g, init).pendingAdmin.Some? { NominatedStays(g, init, last, Run(g, init).pendingAdmin.value); }
      if last.call.ProposeNewAdminCall? && last.call.caller == Run(g, init).admin {
        NominatedNow(g, init, last, last.call.newAdmin);
      }
    }
  }

  /** Only the admin allocates; a first allocation starts from 0, not from the default. */
  lemma AllocateOutcome(g: Gov, caller: Address, user: Address, credits: int)
    requires CreditsInRange(g) && 0 <= g.totalCreditsIssued
    ensures var r := AllocateCredits(g, caller, user, credits); var held := if user in g.credits then g.credits[user] else 0;
      && (r.Ok? <==> caller == g.admin && 0 <= credits && held + credits <= I128_MAX && g.totalCreditsIssued + credits <= I128_MAX)
      && (r.Ok? ==> r.value.0 == g.(credits := g.credits[user := held + credits], totalCreditsIssued := g.totalCreditsIssued + credits))
  {
  }

  lemma SetMinQuorumOutcome(g: Gov, caller: Address, bps: nat)
    ensures var r := SetMinQuorumBps(g, caller, bps);
      (r.Ok? <==> caller == g.admin && 1 <= bps <= 10_000) && (r.Ok? ==> r.value.0 == g.(minQuorumBps := bps))
  {
  }

  /** A new contract starts with nobody's credits, a fifth of all credits as quorum, and a default of
      10 000 credits for whoever votes without an allocation. */
  lemma FreshOutcome(admin: Address, user: Address)
    ensures var g := Fresh(admin);
      && g.admin == admin && g.pendingAdmin == None && g.credits == map[] && g.totalCreditsIssued == 0
      && g.minQuorumBps == 2_000 && g.proposalCounter == 0 && g.proposals == map[] && g.records == map[]
      && CreditsOf(g, user) == 10_000
  {
  }

  // ---- proposals ----

  /** q is the least number of votes, and at least one, that makes up the percentage of the credits. */
  predicate LeastQuorum(g: Gov, q: int) {
    && 1 <= q && q * 10_000 >= g.totalCreditsIssued * g.minQuorumBps
    && (q == 1 || (q - 1) * 10_000 < g.totalCreditsIssued * g.minQuorumBps)
  }

  lemma QuorumForIs(g: Gov, q: int)
    requires LeastQuorum(g, q) && IsI128(g.totalCreditsIssued * g.minQuorumBps)
    ensures QuorumForCredits(g.totalCreditsIssued, g.minQuorumBps) == Ok(q)
  {
    QuorumIsLeast(g.totalCreditsIssued, g.minQuorumBps, q);
    QuorumIsLeast(g.totalCreditsIssued, g.minQuorumBps, q - 1);
    if q == 1 {
      QuorumIsLeast(g.totalCreditsIssued, g.minQuorumBps, 0);
    }
  }

  /** Anybody proposes, for a day to two weeks. */
  lemma CreateOutcome(g: Gov, creator: Address, period: nat, now: nat, ledger: nat, q: int)
    requires LeastQuorum(g, q)
    ensures var r := CreateProposal(g, creator, period, now, ledger); var id := g.proposalCounter + 1;
      && (r.Ok? <==>
            && 86_400 <= period <= 1_209_600 && g.proposalCounter < U32_MAX && now + period <= U64_MAX
            && IsI128(g.totalCreditsIssued * g.minQuorumBps))
      && (r.Ok? ==> r.value == (g.(proposalCounter := id, proposals := g.proposals[id :=
                      Proposal(creator, 0, 0, 0, 0, now, now + period, OPEN, q, ledger)]), id))
  {
    if IsI128(g.totalCreditsIssued * g.minQuorumBps) {
      QuorumForIs(g, q);
    }
  }

  lemma CancelOutcome(g: Gov, caller: Address, id: nat, now: nat)
    ensures var r := CancelProposal(g, caller, id, now);
      && (r.Ok? <==> id in g.proposals && caller == g.proposals[id].creator && g.proposals[id].status == OPEN && now < g.proposals[id].deadline)
      && (r.Ok? ==> r.value.0 == g.(proposals := g.proposals[id := g.proposals[id].(status := CANCELLED)]))
  {
  }

  // ---- votes ----

  /** The votes, the cost and the count of voters still fit. */
  predicate VoteFits(p: Proposal, support: bool, votes: int) {
    && (if support then p.votesFor else p.votesAgainst) + votes <= I128_MAX
    && p.totalQuadraticCost + votes * votes <= I128_MAX
    && p.voterCount < U32_MAX
  }

  /** The proposal after a vote. */
  function Voted(p: Proposal, support: bool, votes: int, cost: int): Proposal {
    Proposal(p.creator, p.votesFor + (if support then votes else 0), p.votesAgainst + (if support then 0 else votes),
             p.totalQuadraticCost + cost, p.voterCount + 1, p.createdAt, p.deadline, p.status, p.quorum, p.createdAtLedger)
  }

  /** In every reachable state a vote is accepted exactly when voting is open, the voter has not
      voted on the proposal, and the square of the votes is within both the voter's credits, 10 000
      for whoever has none yet, and the token balance at the time of the proposal. */
  lemma VoteOutcome(admin: Address, events: seq<Event>, voter: Address, id: nat, support: bool, votes: int, now: nat, pastBalance: int)
    ensures var g := Run(Fresh(admin), events); var r := Vote(g, voter, id, support, votes, now, pastBalance);
      var credits := if voter in g.credits then g.credits[voter] else 10_000;
      && (r.Ok? <==>
            && id in g.proposals && g.proposals[id].status == OPEN && now < g.proposals[id].deadline && (id, voter) !in g.records
            && 0 < votes && votes * votes <= credits && votes * votes <= pastBalance && VoteFits(g.proposals[id], support, votes))
      && (r.Ok? ==> r.value.0 == g.(
            proposals := g.proposals[id := Voted(g.proposals[id], support, votes, votes * votes)],
            records := g.records[(id, voter) := VoteRecord(votes, votes * votes, support)],
            credits := g.credits[voter := credits - votes * votes]))
  {
    ReachableCreditsInRange(admin, events, voter);
    var g := Run(Fresh(admin), events);
    if 0 < votes {
      MulLe(1, votes, votes);
    }
    if id in g.proposals {
      ReachableTallies(admin, events, id);
      VoteInState(g, voter, id, support, votes, votes * votes, now, pastBalance);
    } else {
      NoProposalNoVote(g, voter, id, support, votes, now, pastBalance);
    }
  }

  lemma NoProposalNoVote(g: Gov, voter: Address, id: nat, support: bool, votes: int, now: nat, pastBalance: int)
    requires id !in g.proposals
    ensures Vote(g, voter, id, support, votes, now, pastBalance).Err?
  {
  }

  lemma VoteInState(g: Gov, voter: Address, id: nat, support: bool, votes: int, cost: int, now: nat, pastBalance: int)
    requires id in g.proposals && 0 <= CreditsOf(g, voter) <= I128_MAX && cost == votes * votes && (0 < votes ==> votes <= cost)
    requires 0 <= g.proposals[id].votesFor && 0 <= g.proposals[id].votesAgainst && 0 <= g.proposals[id].totalQuadraticCost
    ensures var r := Vote(g, voter, id, support, votes, now, pastBalance); var p := g.proposals[id];
      var credits := if voter in g.credits then g.credits[voter] else 10_000;
      && (r.Ok? <==>
            && p.status == OPEN && now < p.deadline && (id, voter) !in g.records
            && 0 < votes && cost <= credits && cost <= pastBalance
            && (if support then p.votesFor else p.votesAgainst) + votes <= I128_MAX && p.totalQuadraticCost + cost <= I128_MAX && p.voterCount < U32_MAX)
      && (r.Ok? ==> r.value.0 == g.(
            proposals := g.proposals[id := Voted(p, support, votes, cost)],
            records := g.records[(id, voter) := VoteRecord(votes, cost, support)],
            credits := g.credits[voter := credits - cost]))
  {
  }

  /** Event i cast the stored vote, on a past balance that covered it. */
  ghost predicate CastBy(g: Gov, events: seq<Event>, k: VoteKey, i: nat) {
    && i < |events| && k in Run(g, events).records && events[i].call.VoteCall?
    && var c, r := events[i].call, Run(g, events).records[k];
    && c.id == k.0 && c.voter == k.1 && c.support == r.support && c.votes == r.votes
    && r.quadraticCost == r.votes * r.votes <= c.pastBalance
  }

  lemma CastByStays(g: Gov, events: seq<Event>, e: Event, k: VoteKey, i: nat)
    requires CastBy(g, events, k, i)
    ensures CastBy(g, events + [e], k, i)
  {
    assert (events + [e])[..|events|] == events && (events + [e])[i] == events[i];
    StepKeepsRecords(Run(g, events), e, k);
  }

  lemma NewRecord(g: Gov, e: Event, k: VoteKey)
    requires k !in g.records && k in Step(g, e).records
    ensures e.call.VoteCall? && e.call.id == k.0 && e.call.voter == k.1
    ensures var c, r := e.call, Step(g, e).records[k];
      c.support == r.support && c.votes == r.votes && r.quadraticCost == r.votes * r.votes <= c.pastBalance
  {
    if !e.call.VoteCall? {
      RecordsOnlyByVote(g, e);
    }
  }

  /** Every vote ever recorded was cast by somebody who then held its square in tokens when the
      proposal was made. */
  lemma {:induction false} RecordsWereBacked(admin: Address, events: seq<Event>, k: VoteKey)
    requires k in Run(Fresh(admin), events).records
    ensures exists i: nat :: CastBy(Fresh(admin), events, k, i)
  {
    var g := Fresh(admin);
    var init, last := events[..|events| - 1], events[|events| - 1];
    assert events == init + [last];
    if k in Run(g, init).records {
      RecordsWereBacked(admin, init, k);
      var i: nat :| CastBy(g, init, k, i);
      CastByStays(g, init, last, k, i);
    } else {
      NewRecord(Run(g, init), last, k);
      assert CastBy(g, events, k, |init|);
    }
  }

  // ---- verdicts ----

  /** The sums behind a verdict fit. */
  predicate VerdictFits(g: Gov, p: Proposal) {
    IsI128(p.votesFor + p.votesAgainst) && IsI128(g.totalCreditsIssued * g.minQuorumBps)
  }

  /** More for than against, and enough votes for the snapshot, the percentage now, and one. */
  predicate Passing(g: Gov, p: Proposal) {
    && p.votesFor > p.votesAgainst
    && p.votesFor + p.votesAgainst >= p.quorum && p.votesFor + p.votesAgainst >= 1
    && (p.votesFor + p.votesAgainst) * 10_000 >= g.totalCreditsIssued * g.minQuorumBps
  }

  lemma QuorateIff(g: Gov, p: Proposal)
    ensures MeetsQuorum(g, p).Ok? <==> VerdictFits(g, p)
    ensures MeetsQuorum(g, p).Ok? ==> (Passing(g, p) <==> MeetsQuorum(g, p).value && p.votesFor > p.votesAgainst)
  {
    if MeetsQuorum(g, p).Ok? {
      MeetsQuorumIff(g, p);
    }
  }

  /** A verdict is given once voting is over and until execution; it closes an open proposal and
      touches nothing else. */
  lemma HasPassedOutcome(g: Gov, id: nat, now: nat)
    ensures var r := HasPassed(g, id, now);
      && (r.Ok? <==>
            && id in g.proposals && g.proposals[id].status != EXECUTED
            && (g.proposals[id].status == OPEN ==> g.proposals[id].deadline <= now) && VerdictFits(g, g.proposals[id]))
      && (r.Ok? ==>
            var p := g.proposals[id];
            r.value == (g.(proposals := g.proposals[id := if p.status == OPEN then p.(status := CLOSED) else p]), Passing(g, p)))
  {
    if id in g.proposals {
      QuorateIff(g, g.proposals[id]);
      QuorateIff(g, g.proposals[id].(status := CLOSED));
    }
  }

  /** Execution is for the admin or the creator, once, of a proposal that passes after its voting
      is over; it sets the status and nothing else. */
  lemma ExecuteOutcome(g: Gov, executor: Address, id: nat, now: nat)
    ensures var r := ExecuteProposal(g, executor, id, now);
      && (r.Ok? <==>
            && id in g.proposals && (executor == g.admin || executor == g.proposals[id].creator)
            && (g.proposals[id].status == CLOSED || (g.proposals[id].status == OPEN && g.proposals[id].deadline <= now))
            && VerdictFits(g, g.proposals[id]) && Passing(g, g.proposals[id]))
      && (r.Ok? ==> r.value.0 == g.(proposals := g.proposals[id := g.proposals[id].(status := EXECUTED)]))
  {
    if id in g.proposals {
      QuorateIff(g, g.proposals[id]);
      QuorateIff(g, g.proposals[id].(status := CLOSED));
    }
  }

  // ---- two runs ----

  lemma RunOfThree(g: Gov, a: Event, b: Event, c: Event)
    ensures Run(g, [a, b, c]) == Step(Step(Step(g, a), b), c)
  {
    assert [a, b, c][..2] == [a, b] && [a, b][..1] == [a] && [a][..0] == [];
    assert Run(g, [a]) == Step(Run(g, []), a);
  }

  /** The admin names a successor, who takes over and sets the quorum. */
  lemma HandoverRun(first: Address, second: Address)
    ensures var g := Run(Fresh(first), [Event(0, ProposeNewAdminCall(first, second)), Event(0, ClaimAdminRoleCall(second)), Event(0, SetMinQuorumBpsCall(second, 5_000))]);
      g.admin == second && g.pendingAdmin == None && g.minQuorumBps == 5_000
  {
    RunOfThree(Fresh(first), Event(0, ProposeNewAdminCall(first, second)), Event(0, ClaimAdminRoleCall(second)), Event(0, SetMinQuorumBpsCall(second, 5_000)));
  }

  /** A proposal with one vote for it, after its day: asked about it is closed, executed it is done. */
  lemma ExecutedRun(admin: Address, voter: Address)
    ensures var created, voted := Event(0, CreateCall(admin, 86_400, 0)), Event(0, VoteCall(voter, 1, true, 1, 1));
      var asked := Run(Fresh(admin), [created, voted, Event(86_400, HasPassedCall(1))]);
      var done := Run(Fresh(admin), [created, voted, Event(86_400, ExecuteCall(admin, 1))]);
      && 1 in asked.proposals && asked.proposals[1].status == CLOSED
      && 1 in done.proposals && done.proposals[1].status == EXECUTED
  {
    var created, voted := Event(0, CreateCall(admin, 86_400, 0)), Event(0, VoteCall(voter, 1, true, 1, 1));
    RunOfThree(Fresh(admin), created, voted, Event(86_400, HasPassedCall(1)));
    RunOfThree(Fresh(admin), created, voted, Event(86_400, ExecuteCall(admin, 1)));
    OneVoteFor(admin, voter);
    AskedAndDone(Step(Step(Fresh(admin), created), voted), admin);
  }

  lemma AskedAndDone(g: Gov, admin: Address)
    requires g.admin == admin && g.totalCreditsIssued == 0 && g.minQuorumBps == 2_000
    requires 1 in g.proposals && g.proposals[1] == Proposal(admin, 1, 0, 1, 1, 0, 86_400, OPEN, 1, 0)
    ensures var asked, done := Step(g, Event(86_400, HasPassedCall(1))), Step(g, Event(86_400, ExecuteCall(admin, 1)));
      1 in asked.proposals && asked.proposals[1].status == CLOSED && 1 in done.proposals && done.proposals[1].status == EXECUTED
  {
    HasPassedOutcome(g, 1, 86_400);
    ExecuteOutcome(g, admin, 1, 86_400);
  }

  lemma OneVoteFor(admin: Address, voter: Address)
    ensures var g := Step(Step(Fresh(admin), Event(0, CreateCall(admin, 86_400, 0))), Event(0, VoteCall(voter, 1, true, 1, 1)));
      && g.admin == admin && g.totalCreditsIssued == 0 && g.minQuorumBps == 2_000
      && 1 in g.proposals && g.proposals[1] == Proposal(admin, 1, 0, 1, 1, 0, 86_400, OPEN, 1, 0)
  {
    CreateOutcome(Fresh(admin), admin, 86_400, 0, 0, 1);
    var g := Step(Fresh(admin), Event(0, CreateCall(admin, 86_400, 0)));
    VoteInState(g, voter, 1, true, 1, 1, 0, 1);
  }
}
