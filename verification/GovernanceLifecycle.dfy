/** The life of a proposal: what each status promises, when tallies stop moving, and how the two
    ways of asking for a verdict agree. */
module GovernanceLifecycle {
  import opened Host
  import opened Arith
  import opened Roots
  import opened GovernanceModel
  import opened GovernanceTallies

  // ---- quorum ----

  /** The quorum is the least number of votes, and at least one, that reaches the percentage. */
  lemma QuorumIsLeast(totalCredits: int, bps: nat, votes: int)
    requires QuorumForCredits(totalCredits, bps).Ok?
    ensures votes >= QuorumForCredits(totalCredits, bps).value <==> votes >= 1 && votes * BPS_DENOMINATOR >= totalCredits * bps
  {
    var scaled := totalCredits * bps;
    if scaled > 0 {
      FloorDiv(scaled, BPS_DENOMINATOR);
    }
  }

  lemma QuorumNeverBelow(g: Gov, p: Proposal)
    requires RequiredQuorum(g, p).Ok?
    ensures RequiredQuorum(g, p).value >= 1 && RequiredQuorum(g, p).value >= p.quorum
  {
    QuorumIsLeast(g.totalCreditsIssued, g.minQuorumBps, RequiredQuorum(g, p).value);
  }

  /** The quorum test: the snapshot, and the percentage of the credits issued by now. */
  lemma MeetsQuorumIff(g: Gov, p: Proposal)
    requires MeetsQuorum(g, p).Ok?
    ensures var total := p.votesFor + p.votesAgainst;
      MeetsQuorum(g, p).value
      <==> total >= p.quorum && total >= 1 && total * BPS_DENOMINATOR >= g.totalCreditsIssued * g.minQuorumBps
  {
    QuorumIsLeast(g.totalCreditsIssued, g.minQuorumBps, p.votesFor + p.votesAgainst);
  }

  /** A new proposal starts open and empty under a new number, and its quorum is the least that
      reaches the percentage of the credits issued at that moment. */
  lemma NewProposal(g: Gov, creator: Address, period: nat, now: nat, ledger: nat, votes: int)
    requires NumberedUpTo(g) && CreateProposal(g, creator, period, now, ledger).Ok?
    ensures var (h, id) := CreateProposal(g, creator, period, now, ledger).value;
      && id !in g.proposals && id in h.proposals
      && h.proposals[id].status == OPEN && TallyOf(h.proposals[id]) == Tally(0, 0, 0, 0)
      && MIN_TIMELOCK <= h.proposals[id].deadline - now <= MAX_TIMELOCK && h.proposals[id].deadline == now + period
      && (votes >= h.proposals[id].quorum <==> votes >= 1 && votes * BPS_DENOMINATOR >= g.totalCreditsIssued * g.minQuorumBps)
  {
    QuorumIsLeast(g.totalCreditsIssued, g.minQuorumBps, votes);
  }

  // ---- statuses ----

  /** A proposal's snapshot quorum is at least one vote, and an executed one really passed. */
  predicate Sound(p: Proposal) {
    && p.quorum >= 1
    && (p.status == EXECUTED ==> p.votesFor > p.votesAgainst && p.votesFor + p.votesAgainst >= p.quorum)
  }

  predicate Ended(p: Proposal, now: nat) {
    p.status != OPEN || p.deadline <= now
  }

  /** What one call at time `now` may do to an existing proposal. */
  predicate Allowed(p: Proposal, q: Proposal, now: nat) {
    && q.creator == p.creator && q.deadline == p.deadline && q.quorum == p.quorum
    && (p.status == EXECUTED || p.status == CANCELLED ==> q == p)
    && (Ended(p, now) ==> TallyOf(q) == TallyOf(p) && Ended(q, now))
    && (q.status != p.status ==>
          || (q.status == CANCELLED && p.status == OPEN && now < p.deadline)
          || (q.status in {CLOSED, EXECUTED} && (p.status == CLOSED || p.deadline <= now)))
  }

  ghost predicate SameRecordsOn(g: Gov, h: Gov, id: nat) {
    forall k: VoteKey :: k.0 == id ==> (k in h.records <==> k in g.records) && (k in g.records ==> h.records[k] == g.records[k])
  }

  lemma VoteAllowed(g: Gov, voter: Address, id: nat, support: bool, votes: int, now: nat, balance: int, other: nat)
    requires other in g.proposals && Sound(g.proposals[other])
    ensures var h := After(g, Vote(g, voter, id, support, votes, now, balance));
      && other in h.proposals && Sound(h.proposals[other]) && Allowed(g.proposals[other], h.proposals[other], now)
      && (Ended(g.proposals[other], now) ==> SameRecordsOn(g, h, other))
  {
  }

  lemma ExecuteAllowed(g: Gov, executor: Address, id: nat, now: nat, other: nat)
    requires other in g.proposals && Sound(g.proposals[other])
    ensures var h := After(g, ExecuteProposal(g, executor, id, now));
      other in h.proposals && Sound(h.proposals[other]) && Allowed(g.proposals[other], h.proposals[other], now)
  {
    if other == id && ExecuteProposal(g, executor, id, now).Ok? {
      QuorumNeverBelow(g, Close(g.proposals[id], now).value);
    }
  }

  lemma CreateAllowed(g: Gov, creator: Address, period: nat, now: nat, ledger: nat, other: nat)
    requires NumberedUpTo(g)
    ensures var h := After(g, CreateProposal(g, creator, period, now, ledger));
      && (other in g.proposals ==> other in h.proposals && h.proposals[other] == g.proposals[other])
      && (other in h.proposals && other !in g.proposals ==> Sound(h.proposals[other]))
  {
    if CreateProposal(g, creator, period, now, ledger).Ok? {
      var q := QuorumForCredits(g.totalCreditsIssued, g.minQuorumBps).value;
      QuorumIsLeast(g.totalCreditsIssued, g.minQuorumBps, q);
    }
  }

  lemma OtherCallsAllowed(g: Gov, e: Event, id: nat)
    requires e.call.CancelCall? || e.call.HasPassedCall? || e.call.AllocateCall? || e.call.SetMinQuorumBpsCall? || e.call.ProposeNewAdminCall? || e.call.ClaimAdminRoleCall?
    requires id in g.proposals && Sound(g.proposals[id])
    ensures var h := Step(g, e);
      id in h.proposals && Sound(h.proposals[id]) && Allowed(g.proposals[id], h.proposals[id], e.now)
  {
    match e.call
    case CancelCall(caller, other) =>
    case HasPassedCall(other) =>
    case _ =>
  }

  lemma StepAllowed(g: Gov, e: Event, id: nat)
    requires NumberedUpTo(g) && id in g.proposals && Sound(g.proposals[id])
    ensures var h := Step(g, e);
      && id in h.proposals && Sound(h.proposals[id]) && Allowed(g.proposals[id], h.proposals[id], e.now)
      && (Ended(g.proposals[id], e.now) ==> SameRecordsOn(g, h, id))
  {
    match e.call
    case VoteCall(voter, other, support, votes, balance) => VoteAllowed(g, voter, other, support, votes, e.now, balance, id);
    case ExecuteCall(executor, other) => ExecuteAllowed(g, executor, other, e.now, id);
    case CreateCall(creator, period, ledger) => CreateAllowed(g, creator, period, e.now, ledger, id);
    case _ => OtherCallsAllowed(g, e, id);
  }

  ghost predicate AllSound(g: Gov) {
    forall id :: id in g.proposals ==> Sound(g.proposals[id])
  }

  lemma StepSound(g: Gov, e: Event)
    requires NumberedUpTo(g) && AllSound(g)
    ensures NumberedUpTo(Step(g, e)) && AllSound(Step(g, e))
  {
    var h := Step(g, e);
    forall id | id in h.proposals
      ensures Sound(h.proposals[id])
    {
      if id in g.proposals {
        StepAllowed(g, e, id);
      } else {
        OnlyCreateAdds(g, e, id);
        CreateAllowed(g, e.call.creator, e.call.votingPeriod, e.now, e.call.ledger, id);
      }
    }
    StepNumbered(g, e);
  }

  lemma OnlyCreateAdds(g: Gov, e: Event, id: nat)
    requires id in Step(g, e).proposals && id !in g.proposals
    ensures e.call.CreateCall?
  {
    match e.call
    case VoteCall(voter, other, support, votes, balance) =>
    case CancelCall(caller, other) =>
    case HasPassedCall(other) =>
    case ExecuteCall(executor, other) =>
    case _ =>
  }

  lemma StepNumbered(g: Gov, e: Event)
    requires NumberedUpTo(g)
    ensures NumberedUpTo(Step(g, e))
  {
    match e.call
    case VoteCall(voter, id, support, votes, balance) =>
    case _ => OthersEffect(g, e);
  }

  lemma {:induction false} RunSound(admin: Address, events: seq<Event>)
    ensures NumberedUpTo(Run(Fresh(admin), events)) && AllSound(Run(Fresh(admin), events))
  {
    if events != [] {
      RunSound(admin, events[..|events| - 1]);
      StepSound(Run(Fresh(admin), events[..|events| - 1]), events[|events| - 1]);
    }
  }

  /** Every executed proposal of every reachable state had a majority and its snapshot quorum. */
  lemma ExecutedReallyPassed(admin: Address, events: seq<Event>, id: nat)
    requires id in Run(Fresh(admin), events).proposals && Run(Fresh(admin), events).proposals[id].status == EXECUTED
    ensures var p := Run(Fresh(admin), events).proposals[id];
      p.votesFor > p.votesAgainst && p.votesFor + p.votesAgainst >= p.quorum >= 1
  {
    RunSound(admin, events);
  }

  /** From the moment voting on a proposal ends, nothing anyone does later moves its tallies or
      adds a record; and a final status is final. */
  lemma {:induction false} EndedIsFrozen(g: Gov, events: seq<Event>, id: nat, since: nat)
    requires NumberedUpTo(g) && AllSound(g) && id in g.proposals && Ended(g.proposals[id], since)
    requires forall i :: 0 <= i < |events| ==> since <= events[i].now
    ensures var h := Run(g, events);
      && NumberedUpTo(h) && AllSound(h) && id in h.proposals
      && TallyOf(h.proposals[id]) == TallyOf(g.proposals[id])
      && SameRecordsOn(g, h, id)
      && (g.proposals[id].status in {EXECUTED, CANCELLED} ==> h.proposals[id] == g.proposals[id])
      && Ended(h.proposals[id], since)
  {
    if events != [] {
      var init, last := events[..|events| - 1], events[|events| - 1];
      EndedIsFrozen(g, init, id, since);
      StepSound(Run(g, init), last);
      StepAllowed(Run(g, init), last, id);
      EndedStays(Run(g, init).proposals[id], Step(Run(g, init), last).proposals[id], since, last.now);
    }
  }

  lemma EndedStays(p: Proposal, q: Proposal, since: nat, now: nat)
    requires since <= now && Ended(p, since) && Allowed(p, q, now)
    ensures Ended(q, since) && TallyOf(q) == TallyOf(p)
  {
  }

  lemma StepKeepsRecords(g: Gov, e: Event, k: VoteKey)
    requires k in g.records
    ensures k in Step(g, e).records && Step(g, e).records[k] == g.records[k]
  {
    match e.call
    case VoteCall(voter, id, support, votes, balance) =>
    case _ => RecordsOnlyByVote(g, e);
  }

  lemma RecordsOnlyByVote(g: Gov, e: Event)
    requires !e.call.VoteCall?
    ensures Step(g, e).records == g.records
  {
    match e.call
    case CreateCall(creator, period, ledger) =>
    case HasPassedCall(id) =>
    case ExecuteCall(executor, id) =>
    case _ =>
  }

  /** A vote, once cast, stands: no later call removes or rewrites its record, so nobody votes
      twice on a proposal. */
  lemma {:induction false} VotesStand(g: Gov, events: seq<Event>, k: VoteKey)
    requires k in g.records
    ensures k in Run(g, events).records && Run(g, events).records[k] == g.records[k]
  {
    if events != [] {
      VotesStand(g, events[..|events| - 1], k);
      StepKeepsRecords(Run(g, events[..|events| - 1]), events[|events| - 1], k);
    }
  }

  // ---- the two verdicts ----

  /** Executing succeeds exactly when the question `has_passed` is answered yes, for every
      proposal that is closed, or open past its deadline. */
  lemma PassedIffExecutable(g: Gov, id: nat, now: nat, executor: Address)
    requires id in g.proposals && g.proposals[id].status in {OPEN, CLOSED} && Ended(g.proposals[id], now)
    requires executor == g.admin || executor == g.proposals[id].creator
    ensures Answer(HasPassed(g, id, now)) == Ok(true) <==> ExecuteProposal(g, executor, id, now).Ok?
  {
  }

  /** `has_passed` does not look for CANCELLED.  Over all proposals it answers for, the two
      verdicts agree exactly when the proposal is not a cancelled one whose tallies would pass. */
  lemma VerdictsAgreeUnlessCancelled(g: Gov, id: nat, now: nat, executor: Address)
    requires id in g.proposals && g.proposals[id].status != EXECUTED && Ended(g.proposals[id], now)
    requires executor == g.admin || executor == g.proposals[id].creator
    ensures var p := g.proposals[id];
      (Answer(HasPassed(g, id, now)) == Ok(true) <==> ExecuteProposal(g, executor, id, now).Ok?)
      <==> !(p.status == CANCELLED && MeetsQuorum(g, p) == Ok(true) && p.votesFor > p.votesAgainst)
  {
  }

  /** A cancelled proposal that `has_passed` still reports as passed: one vote for, then cancelled
      by its creator a second later. */
  lemma CancelledCanStillPass(admin: Address, creator: Address, voter: Address)
    ensures var g := Run(Fresh(admin), [Event(0, CreateCall(creator, 86_400, 0)), Event(0, VoteCall(voter, 1, true, 1, 1)), Event(1, CancelCall(creator, 1))]);
      && 1 in g.proposals && g.proposals[1].status == CANCELLED
      && Answer(HasPassed(g, 1, 2)) == Ok(true) && ExecuteProposal(g, admin, 1, 2) == Err(NotClosed)
  {
    var e0, e1, e2 := Event(0, CreateCall(creator, 86_400, 0)), Event(0, VoteCall(voter, 1, true, 1, 1)), Event(1, CancelCall(creator, 1));
    assert [e0, e1, e2][..2] == [e0, e1] && [e0, e1][..1] == [e0] && [e0][..0] == [];
    var g0 := Step(Fresh(admin), e0);
    assert g0 == Run(Fresh(admin), [e0]);
    assert QuorumForCredits(0, DEFAULT_MIN_QUORUM_BPS) == Ok(1);
    assert g0.proposals[1] == Proposal(creator, 0, 0, 0, 0, 0, 86_400, OPEN, 1, 0);
    var g1 := Step(g0, e1);
    assert g1.proposals[1] == Proposal(creator, 1, 0, 1, 1, 0, 86_400, OPEN, 1, 0);
    var g2 := Step(g1, e2);
    assert g2.proposals[1] == Proposal(creator, 1, 0, 1, 1, 0, 86_400, CANCELLED, 1, 0);
  }

  /** Executing is possible once only. */
  lemma ExecutedOnce(g: Gov, id: nat, now: nat, later: nat, executor: Address, again: Address)
    requires ExecuteProposal(g, executor, id, now).Ok?
    ensures var h := ExecuteProposal(g, executor, id, now).value.0;
      h.proposals[id].status == EXECUTED && ExecuteProposal(h, again, id, later).Err? && HasPassed(h, id, later).Err?
  {
  }

  // ---- credits and votes ----

  /** What `max_votes` returns for a balance. */
  function MaxVotesFor(credits: nat): int {
    if credits < I128_MAX then Isqrt(credits) else UNBOUNDED_CREDITS_ANSWER
  }

  ghost predicate CreditsInRange(g: Gov) {
    forall u :: u in g.credits ==> 0 <= g.credits[u] <= I128_MAX
  }

  lemma StepCreditsInRange(g: Gov, e: Event)
    requires CreditsInRange(g)
    ensures CreditsInRange(Step(g, e))
  {
    match e.call
    case VoteCall(voter, id, support, votes, balance) => VoteCreditsInRange(g, voter, id, support, votes, e.now, balance);
    case AllocateCall(caller, user, credits) =>
    case _ => SameCredits(g, e);
  }

  lemma VoteCreditsInRange(g: Gov, voter: Address, id: nat, support: bool, votes: int, now: nat, pastBalance: int)
    requires CreditsInRange(g)
    ensures CreditsInRange(After(g, Vote(g, voter, id, support, votes, now, pastBalance)))
  {
    var r := Vote(g, voter, id, support, votes, now, pastBalance);
    if r.Ok? {
      assert r.value.0.credits == g.credits[voter := CreditsOf(g, voter) - votes * votes];
      assert votes * votes <= CreditsOf(g, voter);
      MulLe(0, votes, votes);
    }
  }

  lemma SameCredits(g: Gov, e: Event)
    requires !e.call.VoteCall? && !e.call.AllocateCall?
    ensures Step(g, e).credits == g.credits
  {
    match e.call
    case HasPassedCall(id) =>
    case ExecuteCall(executor, id) =>
    case _ =>
  }

  lemma {:induction false} ReachableCreditsInRange(admin: Address, events: seq<Event>, user: Address)
    ensures CreditsInRange(Run(Fresh(admin), events)) && 0 <= CreditsOf(Run(Fresh(admin), events), user) <= I128_MAX
  {
    if events != [] {
      ReachableCreditsInRange(admin, events[..|events| - 1], user);
      StepCreditsInRange(Run(Fresh(admin), events[..|events| - 1]), events[|events| - 1]);
    }
  }

  /** The voter may vote on the proposal at all: the guards of `vote` before the price. */
  predicate MayVote(g: Gov, voter: Address, id: nat, now: nat) {
    id in g.proposals && g.proposals[id].status == OPEN && now < g.proposals[id].deadline && (id, voter) !in g.records
  }

  /** `vote` does not refuse for the price: the cost neither overflows nor exceeds the credits. */
  predicate NotPricedOut(g: Gov, voter: Address, id: nat, support: bool, votes: int, now: nat, pastBalance: int) {
    var r := Vote(g, voter, id, support, votes, now, pastBalance);
    r != Err(CostOverflow) && r != Err(InsufficientCredits)
  }

  lemma PriceGuards(g: Gov, voter: Address, id: nat, support: bool, votes: int, now: nat, pastBalance: int)
    requires MayVote(g, voter, id, now) && 0 < votes && 0 <= votes * votes && CreditsOf(g, voter) <= I128_MAX
    ensures NotPricedOut(g, voter, id, support, votes, now, pastBalance) <==> votes * votes <= CreditsOf(g, voter)
  {
  }

  lemma AffordableUpToRoot(g: Gov, voter: Address, id: nat, support: bool, votes: int, now: nat, pastBalance: int)
    requires MayVote(g, voter, id, now) && 0 < votes && 0 <= CreditsOf(g, voter) <= I128_MAX
    ensures NotPricedOut(g, voter, id, support, votes, now, pastBalance) <==> votes <= Isqrt(CreditsOf(g, voter))
  {
    MulLe(0, votes, votes);
    PriceGuards(g, voter, id, support, votes, now, pastBalance);
    IsqrtIsGreatest(votes, CreditsOf(g, voter));
  }

  /** In every reachable state, for every open proposal: the advertised maximum and the credit
      check of `vote` agree on every number of votes exactly when the balance is below
      `i128::MAX`, where the unchecked sum in `max_votes` wraps. */
  lemma MaxVotesIsTheLimit(admin: Address, events: seq<Event>, voter: Address, id: nat, support: bool, now: nat, pastBalance: int)
    requires MayVote(Run(Fresh(admin), events), voter, id, now)
    ensures var g := Run(Fresh(admin), events);
      && 0 <= CreditsOf(g, voter)
      && ((forall votes {:trigger NotPricedOut(g, voter, id, support, votes, now, pastBalance)} :: 0 < votes ==>
             (NotPricedOut(g, voter, id, support, votes, now, pastBalance) <==> votes <= MaxVotesFor(CreditsOf(g, voter))))
          <==> CreditsOf(g, voter) < I128_MAX)
  {
    ReachableCreditsInRange(admin, events, voter);
    LimitIff(Run(Fresh(admin), events), voter, id, support, now, pastBalance);
  }

  lemma LimitIff(g: Gov, voter: Address, id: nat, support: bool, now: nat, pastBalance: int)
    requires MayVote(g, voter, id, now) && 0 <= CreditsOf(g, voter) <= I128_MAX
    ensures (forall votes {:trigger NotPricedOut(g, voter, id, support, votes, now, pastBalance)} :: 0 < votes ==>
               (NotPricedOut(g, voter, id, support, votes, now, pastBalance) <==> votes <= MaxVotesFor(CreditsOf(g, voter))))
            <==> CreditsOf(g, voter) < I128_MAX
  {
    if CreditsOf(g, voter) < I128_MAX {
      forall votes | 0 < votes
        ensures NotPricedOut(g, voter, id, support, votes, now, pastBalance) <==> votes <= MaxVotesFor(CreditsOf(g, voter))
      {
        AffordableUpToRoot(g, voter, id, support, votes, now, pastBalance);
      }
    } else {
      AffordableUpToRoot(g, voter, id, support, 1, now, pastBalance);
      IsqrtIsGreatest(1, CreditsOf(g, voter));
    }
  }

  /** The admin can grant that balance in one call: the advertised maximum is then negative, and
      the user's vote is accepted. */
  lemma RichestVoter(admin: Address, user: Address)
    ensures var g := Run(Fresh(admin), [Event(0, CreateCall(admin, 86_400, 0)), Event(0, AllocateCall(admin, user, I128_MAX))]);
      MaxVotesFor(I128_MAX) < 0 && CreditsOf(g, user) == I128_MAX && Vote(g, user, 1, true, 1, 0, 1).Ok?
  {
    var e0, e1 := Event(0, CreateCall(admin, 86_400, 0)), Event(0, AllocateCall(admin, user, I128_MAX));
    assert [e0, e1][..1] == [e0] && [e0][..0] == [];
    var g0 := Step(Fresh(admin), e0);
    assert g0 == Run(Fresh(admin), [e0]);
    assert QuorumForCredits(0, DEFAULT_MIN_QUORUM_BPS) == Ok(1);
    assert g0.proposals[1] == Proposal(admin, 0, 0, 0, 0, 0, 86_400, OPEN, 1, 0);
    assert Step(g0, e1).credits == map[user := I128_MAX];
  }
}
