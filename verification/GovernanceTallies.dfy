/** The stored tallies of every proposal are exactly what its vote records say, and they satisfy
    the Cauchy-Schwarz bound that quadratic voting rests on. */
module GovernanceTallies {
  import opened Host
  import opened Arith
  import opened Sums
  import opened GovernanceModel

  type Records = map<VoteKey, VoteRecord>

  ghost function CostsOn(records: Records, id: nat): map<VoteKey, int> {
    map k | k in records && k.0 == id :: records[k].quadraticCost
  }

  ghost function VotesOn(records: Records, id: nat, support: bool): map<VoteKey, int> {
    map k | k in records && k.0 == id && records[k].support == support :: records[k].votes
  }

  datatype Tally = Tally(votesFor: int, votesAgainst: int, cost: int, voters: int)

  function TallyOf(p: Proposal): Tally {
    Tally(p.votesFor, p.votesAgainst, p.totalQuadraticCost, p.voterCount)
  }

  /** The tally a proposal's vote records add up to. */
  ghost function RecordTally(records: Records, id: nat): Tally {
    Tally(Sum(VotesOn(records, id, true)), Sum(VotesOn(records, id, false)), Sum(CostsOn(records, id)), |CostsOn(records, id)|)
  }

  ghost predicate RecordPriced(r: VoteRecord) {
    0 < r.votes && r.quadraticCost == r.votes * r.votes
  }

  ghost predicate AllPriced(records: Records) {
    forall k :: k in records ==> RecordPriced(records[k])
  }

  ghost predicate Tallied(g: Gov, id: nat)
    requires id in g.proposals
  {
    id <= g.proposalCounter && TallyOf(g.proposals[id]) == RecordTally(g.records, id)
  }

  ghost predicate RecordsOwned(g: Gov) {
    AllPriced(g.records) && forall k :: k in g.records ==> k.0 in g.proposals
  }

  ghost predicate Inv(g: Gov) {
    RecordsOwned(g) && forall id :: id in g.proposals ==> Tallied(g, id)
  }

  function Counted(t: Tally, r: VoteRecord): Tally {
    if r.support then t.(votesFor := t.votesFor + r.votes, cost := t.cost + r.quadraticCost, voters := t.voters + 1)
    else t.(votesAgainst := t.votesAgainst + r.votes, cost := t.cost + r.quadraticCost, voters := t.voters + 1)
  }

  lemma OneMoreCost(records: Records, k: VoteKey, r: VoteRecord)
    requires k !in records
    ensures var costs := CostsOn(records, k.0); var after := CostsOn(records[k := r], k.0);
      Sum(after) == Sum(costs) + r.quadraticCost && |after| == |costs| + 1
  {
    var costs := CostsOn(records, k.0);
    assert CostsOn(records[k := r], k.0) == costs[k := r.quadraticCost];
    SumStore(costs, k, r.quadraticCost);
  }

  lemma OneMoreSide(records: Records, k: VoteKey, r: VoteRecord, side: bool)
    requires k !in records
    ensures Sum(VotesOn(records[k := r], k.0, side)) == Sum(VotesOn(records, k.0, side)) + if r.support == side then r.votes else 0
  {
    var votes := VotesOn(records, k.0, side);
    if r.support == side {
      assert VotesOn(records[k := r], k.0, side) == votes[k := r.votes];
      SumStore(votes, k, r.votes);
    } else {
      assert VotesOn(records[k := r], k.0, side) == votes;
    }
  }

  /** A new record adds its votes to its side, its cost, and one voter, to its own proposal. */
  lemma OneMoreRecord(records: Records, k: VoteKey, r: VoteRecord)
    requires k !in records
    ensures RecordTally(records[k := r], k.0) == Counted(RecordTally(records, k.0), r)
  {
    OneMoreCost(records, k, r);
    OneMoreSide(records, k, r, true);
    OneMoreSide(records, k, r, false);
    CountedBySums(records, records[k := r], k.0, r);
  }

  lemma CountedBySums(before: Records, after: Records, id: nat, r: VoteRecord)
    requires Sum(CostsOn(after, id)) == Sum(CostsOn(before, id)) + r.quadraticCost && |CostsOn(after, id)| == |CostsOn(before, id)| + 1
    requires Sum(VotesOn(after, id, true)) == Sum(VotesOn(before, id, true)) + if r.support then r.votes else 0
    requires Sum(VotesOn(after, id, false)) == Sum(VotesOn(before, id, false)) + if r.support then 0 else r.votes
    ensures RecordTally(after, id) == Counted(RecordTally(before, id), r)
  {
  }

  lemma OtherProposalsUntouched(records: Records, k: VoteKey, r: VoteRecord, other: nat)
    requires other != k.0
    ensures RecordTally(records[k := r], other) == RecordTally(records, other)
  {
    var after := records[k := r];
    assert CostsOn(after, other) == CostsOn(records, other);
    assert VotesOn(after, other, true) == VotesOn(records, other, true);
    assert VotesOn(after, other, false) == VotesOn(records, other, false);
  }

  lemma NoRecordsNoTally(records: Records, id: nat)
    requires forall k :: k in records ==> k.0 != id
    ensures RecordTally(records, id) == Tally(0, 0, 0, 0)
  {
    assert CostsOn(records, id) == map[];
    assert VotesOn(records, id, true) == map[];
    assert VotesOn(records, id, false) == map[];
  }

  // ---- Cauchy-Schwarz ----

  /** Votes are not negative, and total votes squared is at most voters times what they paid. */
  ghost predicate CauchySchwarz(t: Tally) {
    && 0 <= t.votesFor && 0 <= t.votesAgainst && 0 <= t.cost && 0 <= t.voters
    && (t.votesFor + t.votesAgainst) * (t.votesFor + t.votesAgainst) <= t.voters * t.cost
  }

  lemma CountedKeepsBound(t: Tally, r: VoteRecord)
    requires CauchySchwarz(t) && RecordPriced(r)
    ensures CauchySchwarz(Counted(t, r))
  {
    MulLe2(0, r.votes, 0, r.votes);
    OneMoreVoter(t.votesFor + t.votesAgainst, t.voters, t.cost, r.votes);
  }

  lemma OneMoreVoter(s: nat, n: nat, q: nat, v: nat)
    requires s * s <= n * q
    ensures (s + v) * (s + v) <= (n + 1) * (q + v * v)
  {
    assert (s + v) * (s + v) == s * s + 2 * (s * v) + v * v;
    assert (n + 1) * (q + v * v) == n * q + n * (v * v) + q + v * v;
    CrossTerm(s, n, q, v);
  }

  lemma CrossTerm(s: nat, n: nat, q: nat, v: nat)
    requires s * s <= n * q
    ensures 2 * (s * v) <= n * (v * v) + q
  {
    if n == 0 {
      if 0 < s {
        MulLe2(1, s, 1, s);
      }
    } else {
      var t, nv := n * v - s, n * v;
      assert t * t == nv * nv - 2 * (nv * s) + s * s;
      assert t * t >= 0;
      assert nv * s == (s * v) * n && nv * nv == (n * (v * v)) * n;
      assert (n * (v * v) + q) * n == (n * (v * v)) * n + n * q;
      CancelLe(2 * (s * v), n * (v * v) + q, n);
    }
  }

  /** Any set of properly priced records satisfies the bound, proposal by proposal. */
  lemma {:induction false} RecordsSatisfyBound(records: Records, id: nat)
    requires AllPriced(records)
    ensures CauchySchwarz(RecordTally(records, id))
    decreases |records|
  {
    if k :| k in records && k.0 == id {
      var rest := records - {k};
      RecordsSatisfyBound(rest, id);
      CountedKeepsBound(RecordTally(rest, id), records[k]);
      assert rest[k := records[k]] == records;
      OneMoreRecord(rest, k, records[k]);
    } else {
      NoRecordsNoTally(records, id);
    }
  }

  // ---- every step ----

  ghost predicate IsVote(g: Gov, h: Gov, k: VoteKey, r: VoteRecord) {
    && k.0 in g.proposals && k !in g.records && RecordPriced(r)
    && h.records == g.records[k := r] && h.proposalCounter == g.proposalCounter
    && h.proposals.Keys == g.proposals.Keys
    && (forall other :: other in g.proposals && other != k.0 ==> h.proposals[other] == g.proposals[other])
    && TallyOf(h.proposals[k.0]) == Counted(TallyOf(g.proposals[k.0]), r)
  }

  lemma VoteEffect(g: Gov, voter: Address, id: nat, support: bool, votes: int, now: nat, balance: int)
    requires Vote(g, voter, id, support, votes, now, balance).Ok?
    ensures IsVote(g, Vote(g, voter, id, support, votes, now, balance).value.0, (id, voter), VoteRecord(votes, votes * votes, support))
  {
  }

  lemma RecordAddedAt(g: Gov, h: Gov, k: VoteKey, r: VoteRecord, id: nat)
    requires IsVote(g, h, k, r) && id in g.proposals && Tallied(g, id)
    ensures id in h.proposals && Tallied(h, id)
  {
    if id == k.0 {
      OneMoreRecord(g.records, k, r);
    } else {
      OtherProposalsUntouched(g.records, k, r, id);
    }
  }

  lemma RecordStillOwned(g: Gov, h: Gov, k: VoteKey, r: VoteRecord)
    requires RecordsOwned(g) && IsVote(g, h, k, r)
    ensures RecordsOwned(h)
  {
  }

  lemma RecordAdded(g: Gov, h: Gov, k: VoteKey, r: VoteRecord)
    requires Inv(g) && IsVote(g, h, k, r)
    ensures Inv(h)
  {
    RecordStillOwned(g, h, k, r);
    forall id | id in h.proposals
      ensures Tallied(h, id)
    {
      assert id in g.proposals && Tallied(g, id);
      RecordAddedAt(g, h, k, r, id);
    }
  }

  /** Every entry point but `vote` leaves records and tallies alone; a new proposal starts at 0. */
  ghost predicate LeavesTallies(g: Gov, h: Gov) {
    && h.records == g.records && g.proposalCounter <= h.proposalCounter
    && g.proposals.Keys <= h.proposals.Keys
    && (forall id :: id in g.proposals ==> TallyOf(g.proposals[id]) == TallyOf(h.proposals[id]))
    && (forall id :: id in h.proposals && id !in g.proposals ==>
          id <= h.proposalCounter && TallyOf(h.proposals[id]) == Tally(0, 0, 0, 0))
  }

  predicate NumberedUpTo(g: Gov) {
    forall id :: id in g.proposals ==> id <= g.proposalCounter
  }

  lemma OthersEffect(g: Gov, e: Event)
    requires !e.call.VoteCall? && NumberedUpTo(g)
    ensures LeavesTallies(g, Step(g, e))
  {
    match e.call
    case CreateCall(creator, period, ledger) => CreateEffect(g, creator, period, e.now, ledger);
    case CancelCall(caller, id) => CancelEffect(g, caller, id, e.now);
    case HasPassedCall(id) => VerdictEffect(g, id, e.now);
    case ExecuteCall(executor, id) => ExecuteEffect(g, executor, id, e.now);
    case _ =>
  }

  lemma CreateEffect(g: Gov, creator: Address, period: nat, now: nat, ledger: nat)
    requires NumberedUpTo(g)
    ensures LeavesTallies(g, After(g, CreateProposal(g, creator, period, now, ledger)))
  {
  }

  lemma CancelEffect(g: Gov, caller: Address, id: nat, now: nat)
    ensures LeavesTallies(g, After(g, CancelProposal(g, caller, id, now)))
  {
  }

  lemma VerdictEffect(g: Gov, id: nat, now: nat)
    ensures LeavesTallies(g, After(g, HasPassed(g, id, now)))
  {
  }

  lemma ExecuteEffect(g: Gov, executor: Address, id: nat, now: nat)
    ensures LeavesTallies(g, After(g, ExecuteProposal(g, executor, id, now)))
  {
  }

  lemma OthersKeep(g: Gov, h: Gov)
    requires Inv(g) && LeavesTallies(g, h)
    ensures Inv(h)
  {
    forall id | id in h.proposals
      ensures Tallied(h, id)
    {
      if id in g.proposals {
        assert Tallied(g, id);
      } else {
        NoRecordsNoTally(h.records, id);
      }
    }
  }

  lemma VoteStepKeeps(g: Gov, e: Event)
    requires Inv(g) && e.call.VoteCall?
    ensures Inv(Step(g, e))
  {
    var VoteCall(voter, id, support, votes, balance) := e.call;
    if Vote(g, voter, id, support, votes, e.now, balance).Ok? {
      VoteEffect(g, voter, id, support, votes, e.now, balance);
      RecordAdded(g, Step(g, e), (id, voter), VoteRecord(votes, votes * votes, support));
    }
  }

  lemma OtherStepKeeps(g: Gov, e: Event)
    requires Inv(g) && !e.call.VoteCall?
    ensures Inv(Step(g, e))
  {
    assert NumberedUpTo(g) by {
      forall id | id in g.proposals ensures id <= g.proposalCounter { assert Tallied(g, id); }
    }
    OthersEffect(g, e);
    OthersKeep(g, Step(g, e));
  }

  lemma StepKeeps(g: Gov, e: Event)
    requires Inv(g)
    ensures Inv(Step(g, e))
  {
    if e.call.VoteCall? {
      VoteStepKeeps(g, e);
    } else {
      OtherStepKeeps(g, e);
    }
  }

  lemma {:induction false} RunKeeps(g: Gov, events: seq<Event>)
    requires Inv(g)
    ensures Inv(Run(g, events))
  {
    if events != [] {
      RunKeeps(g, events[..|events| - 1]);
      StepKeeps(Run(g, events[..|events| - 1]), events[|events| - 1]);
    }
  }

  /** In every reachable state every proposal's tallies are the sums over its stored records,
      and they satisfy the bound. */
  lemma ReachableTallies(admin: Address, events: seq<Event>, id: nat)
    requires id in Run(Fresh(admin), events).proposals
    ensures var g := Run(Fresh(admin), events);
      TallyOf(g.proposals[id]) == RecordTally(g.records, id) && CauchySchwarz(TallyOf(g.proposals[id]))
  {
    RunKeeps(Fresh(admin), events);
    assert Tallied(Run(Fresh(admin), events), id);
    RecordsSatisfyBound(Run(Fresh(admin), events).records, id);
  }
}
