/** The credit ledger: nobody's credits go negative, and every credit ever issued is either still
    held or has been paid for votes.  The two things the contract does not store, how much each
    user was allocated and who was first seen voting on the default, are observed along the run. */
module GovernanceLedger {
  import opened Host
  import opened Sums
  import opened GovernanceModel
  import opened GovernanceTallies

  datatype Books = Books(gov: Gov, granted: map<Address, int>, onDefault: set<Address>)

  function Observe(b: Books, e: Event): Books {
    var g := b.gov;
    var gov := Step(g, e);
    match e.call
    case AllocateCall(caller, user, credits) =>
      if AllocateCredits(g, caller, user, credits).Ok?
      then Books(gov, b.granted[user := GetOr(b.granted, user, 0) + credits], b.onDefault)
      else b.(gov := gov)
    case VoteCall(voter, id, support, votes, balance) =>
      if Vote(g, voter, id, support, votes, e.now, balance).Ok? && voter !in g.credits
      then Books(gov, b.granted, b.onDefault + {voter})
      else b.(gov := gov)
    case _ => b.(gov := gov)
  }

  function Watch(b: Books, events: seq<Event>): Books {
    if events == [] then b else Observe(Watch(b, events[..|events| - 1]), events[|events| - 1])
  }

  function Opened(admin: Address): Books {
    Books(Fresh(admin), map[], {})
  }

  /** Watching does not interfere. */
  lemma {:induction false} WatchIsRun(admin: Address, events: seq<Event>)
    ensures Watch(Opened(admin), events).gov == Run(Fresh(admin), events)
  {
    if events != [] {
      WatchIsRun(admin, events[..|events| - 1]);
    }
  }

  ghost function Costs(records: Records): map<VoteKey, int> {
    map k | k in records :: records[k].quadraticCost
  }

  function ProposalOf(k: VoteKey): nat {
    k.0
  }

  function PayerOf(k: VoteKey): Address {
    k.1
  }

  ghost function PaidBy(records: Records, user: Address): int {
    Sum(Group(Costs(records), PayerOf, user))
  }

  ghost function TotalPaid(records: Records): int {
    Sum(Costs(records))
  }

  ghost predicate Settled(b: Books, user: Address)
    requires user in b.gov.credits
  {
    && 0 <= b.gov.credits[user]
    && b.gov.credits[user] + PaidBy(b.gov.records, user)
       == GetOr(b.granted, user, 0) + (if user in b.onDefault then DEFAULT_VOTING_CREDITS else 0)
  }

  ghost predicate Known(b: Books) {
    && b.granted.Keys <= b.gov.credits.Keys && b.onDefault <= b.gov.credits.Keys
    && forall k :: k in b.gov.records ==> k.1 in b.gov.credits
  }

  ghost predicate Balanced(b: Books) {
    && Sum(b.granted) == b.gov.totalCreditsIssued
    && Sum(b.gov.credits) + TotalPaid(b.gov.records) == b.gov.totalCreditsIssued + DEFAULT_VOTING_CREDITS * |b.onDefault|
  }

  ghost predicate LedgerInv(b: Books) {
    Known(b) && Balanced(b) && forall u :: u in b.gov.credits ==> Settled(b, u)
  }

  // ---- a vote ----

  lemma OneMorePayment(records: Records, k: VoteKey, r: VoteRecord)
    requires k !in records
    ensures PaidBy(records[k := r], k.1) == PaidBy(records, k.1) + r.quadraticCost
    ensures TotalPaid(records[k := r]) == TotalPaid(records) + r.quadraticCost
  {
    assert Costs(records[k := r]) == Costs(records)[k := r.quadraticCost];
    SumStore(Costs(records), k, r.quadraticCost);
    GroupWithout(Costs(records[k := r]), PayerOf, k);
    assert Costs(records[k := r]) - {k} == Costs(records);
  }

  lemma OtherPaymentsUntouched(records: Records, k: VoteKey, r: VoteRecord, user: Address)
    requires user != k.1
    ensures PaidBy(records[k := r], user) == PaidBy(records, user)
  {
    assert Group(Costs(records[k := r]), PayerOf, user) == Group(Costs(records), PayerOf, user);
  }

  lemma NothingPaid(b: Books, user: Address)
    requires Known(b) && user !in b.gov.credits
    ensures PaidBy(b.gov.records, user) == 0
  {
    assert Group(Costs(b.gov.records), PayerOf, user) == map[];
  }

  /** What a successful vote does to the books. */
  ghost predicate IsPaidVote(b: Books, c: Books, k: VoteKey, r: VoteRecord) {
    && k !in b.gov.records && c.gov.records == b.gov.records[k := r]
    && c.gov.credits == b.gov.credits[k.1 := CreditsOf(b.gov, k.1) - r.quadraticCost]
    && r.quadraticCost <= CreditsOf(b.gov, k.1)
    && c.gov.totalCreditsIssued == b.gov.totalCreditsIssued && c.granted == b.granted
    && c.onDefault == (if k.1 in b.gov.credits then b.onDefault else b.onDefault + {k.1})
  }

  lemma PaidVoteSettles(b: Books, c: Books, k: VoteKey, r: VoteRecord, user: Address)
    requires Known(b) && IsPaidVote(b, c, k, r) && user in c.gov.credits
    requires user in b.gov.credits ==> Settled(b, user)
    ensures Settled(c, user)
  {
    if user == k.1 {
      OneMorePayment(b.gov.records, k, r);
      if user !in b.gov.credits {
        NothingPaid(b, user);
      }
    } else {
      OtherPaymentsUntouched(b.gov.records, k, r, user);
    }
  }

  lemma PaidVoteBalances(b: Books, c: Books, k: VoteKey, r: VoteRecord)
    requires Known(b) && Balanced(b) && IsPaidVote(b, c, k, r)
    ensures Known(c) && Balanced(c)
  {
    OneMorePayment(b.gov.records, k, r);
    SumStore(b.gov.credits, k.1, CreditsOf(b.gov, k.1) - r.quadraticCost);
  }

  // ---- an allocation ----

  ghost predicate IsAllocation(b: Books, c: Books, user: Address, credits: nat) {
    && c.gov.records == b.gov.records && c.onDefault == b.onDefault
    && c.gov.credits == b.gov.credits[user := GetOr(b.gov.credits, user, 0) + credits]
    && c.granted == b.granted[user := GetOr(b.granted, user, 0) + credits]
    && c.gov.totalCreditsIssued == b.gov.totalCreditsIssued + credits
  }

  lemma AllocationSettles(b: Books, c: Books, user: Address, credits: nat, u: Address)
    requires Known(b) && IsAllocation(b, c, user, credits) && u in c.gov.credits
    requires u in b.gov.credits ==> Settled(b, u)
    ensures Settled(c, u)
  {
    if u !in b.gov.credits {
      NothingPaid(b, u);
    }
  }

  lemma AllocationBalances(b: Books, c: Books, user: Address, credits: nat)
    requires Known(b) && Balanced(b) && IsAllocation(b, c, user, credits)
    ensures Known(c) && Balanced(c)
  {
    SumStore(b.gov.credits, user, GetOr(b.gov.credits, user, 0) + credits);
    SumStore(b.granted, user, GetOr(b.granted, user, 0) + credits);
  }

  // ---- every step ----

  predicate SameBooks(b: Books, c: Books) {
    && c.gov.records == b.gov.records && c.gov.credits == b.gov.credits
    && c.gov.totalCreditsIssued == b.gov.totalCreditsIssued
    && c.granted == b.granted && c.onDefault == b.onDefault
  }

  lemma ObserveEffect(b: Books, e: Event)
    ensures var c := Observe(b, e);
      || SameBooks(b, c)
      || (e.call.VoteCall? && IsPaidVote(b, c, (e.call.id, e.call.voter), VoteRecord(e.call.votes, e.call.votes * e.call.votes, e.call.support)))
      || (e.call.AllocateCall? && 0 <= e.call.credits && IsAllocation(b, c, e.call.user, e.call.credits))
  {
    match e.call
    case VoteCall(voter, id, support, votes, balance) => VoteOnBooks(b, e);
    case AllocateCall(caller, user, credits) =>
    case CreateCall(creator, period, ledger) =>
    case _ =>
  }

  lemma VoteOnBooks(b: Books, e: Event)
    requires e.call.VoteCall?
    ensures var c := Observe(b, e);
      || SameBooks(b, c)
      || IsPaidVote(b, c, (e.call.id, e.call.voter), VoteRecord(e.call.votes, e.call.votes * e.call.votes, e.call.support))
  {
  }

  lemma ObserveKeeps(b: Books, e: Event)
    requires LedgerInv(b)
    ensures LedgerInv(Observe(b, e))
  {
    var c := Observe(b, e);
    ObserveEffect(b, e);
    if SameBooks(b, c) {
      forall u | u in c.gov.credits ensures Settled(c, u) { assert Settled(b, u); }
    } else if e.call.VoteCall? {
      var k, r := (e.call.id, e.call.voter), VoteRecord(e.call.votes, e.call.votes * e.call.votes, e.call.support);
      PaidVoteBalances(b, c, k, r);
      forall u | u in c.gov.credits ensures Settled(c, u) { PaidVoteSettles(b, c, k, r, u); }
    } else {
      AllocationBalances(b, c, e.call.user, e.call.credits);
      forall u | u in c.gov.credits ensures Settled(c, u) { AllocationSettles(b, c, e.call.user, e.call.credits, u); }
    }
  }

  lemma {:induction false} WatchKeeps(b: Books, events: seq<Event>)
    requires LedgerInv(b)
    ensures LedgerInv(Watch(b, events))
  {
    if events != [] {
      WatchKeeps(b, events[..|events| - 1]);
      ObserveKeeps(Watch(b, events[..|events| - 1]), events[|events| - 1]);
    }
  }

  /** Every user's account balances in every reachable state: what is left, never negative, plus
      what was paid across all proposals is what was granted, plus the default if the account
      was opened by a vote. */
  lemma AccountsBalance(admin: Address, events: seq<Event>, user: Address)
    requires user in Run(Fresh(admin), events).credits
    ensures var b := Watch(Opened(admin), events); var g := Run(Fresh(admin), events);
      && 0 <= g.credits[user]
      && g.credits[user] + PaidBy(g.records, user)
         == GetOr(b.granted, user, 0) + (if user in b.onDefault then DEFAULT_VOTING_CREDITS else 0)
  {
    WatchIsRun(admin, events);
    WatchKeeps(Opened(admin), events);
    assert Settled(Watch(Opened(admin), events), user);
  }

  ghost function ProposalCosts(g: Gov): map<nat, int> {
    map id | id in g.proposals :: g.proposals[id].totalQuadraticCost
  }

  ghost function UserPayments(g: Gov): map<Address, int> {
    map u | u in g.credits :: PaidBy(g.records, u)
  }

  /** Across the whole system: what proposals have collected is what users have paid, and it is
      at most the credits issued plus one default per voter who used it. */
  lemma CollectedIsPaidIsIssued(admin: Address, events: seq<Event>)
    ensures var b := Watch(Opened(admin), events); var g := Run(Fresh(admin), events);
      && Sum(ProposalCosts(g)) == Sum(UserPayments(g))
      && Sum(UserPayments(g)) + Sum(g.credits) == g.totalCreditsIssued + DEFAULT_VOTING_CREDITS * |b.onDefault|
      && Sum(ProposalCosts(g)) <= g.totalCreditsIssued + DEFAULT_VOTING_CREDITS * |b.onDefault|
  {
    var b, g := Watch(Opened(admin), events), Run(Fresh(admin), events);
    WatchIsRun(admin, events);
    WatchKeeps(Opened(admin), events);
    GovernanceTallies.RunKeeps(Fresh(admin), events);
    CostsByProposal(g);
    PaymentsByUser(g);
    CreditsNotNegative(b);
  }

  lemma CreditsNotNegative(b: Books)
    requires LedgerInv(b)
    ensures 0 <= Sum(b.gov.credits)
  {
    forall u | u in b.gov.credits ensures 0 <= b.gov.credits[u] { assert Settled(b, u); }
    SumNonNegative(b.gov.credits);
  }

  lemma PaymentsByUser(g: Gov)
    requires forall k :: k in g.records ==> k.1 in g.credits
    ensures Sum(UserPayments(g)) == TotalPaid(g.records)
  {
    GroupSumsAddUp(Costs(g.records), PayerOf, g.credits.Keys);
    assert UserPayments(g) == GroupSums(Costs(g.records), PayerOf, g.credits.Keys);
  }

  lemma CollectedFromRecords(g: Gov, id: nat)
    requires id in g.proposals && Tallied(g, id)
    ensures g.proposals[id].totalQuadraticCost == Sum(Group(Costs(g.records), ProposalOf, id))
  {
    assert CostsOn(g.records, id) == Group(Costs(g.records), ProposalOf, id);
  }

  lemma CostsByProposal(g: Gov)
    requires GovernanceTallies.Inv(g)
    ensures Sum(ProposalCosts(g)) == TotalPaid(g.records)
  {
    GroupSumsAddUp(Costs(g.records), ProposalOf, g.proposals.Keys);
    forall id | id in g.proposals
      ensures g.proposals[id].totalQuadraticCost == Sum(Group(Costs(g.records), ProposalOf, id))
    {
      assert Tallied(g, id);
      CollectedFromRecords(g, id);
    }
    assert ProposalCosts(g) == GroupSums(Costs(g.records), ProposalOf, g.proposals.Keys);
  }
}
