/** The checkpoint index against the history it compresses: every user's true balance, kept in
    full for every closed epoch. */
module SnapshotTheorems {
  import opened Host
  import opened Sums
  import opened SnapshotModel

  /** The contract together with the full history an observer writes down: everybody's balance
      now, and everybody's balance at the close of each past epoch. */
  datatype World = World(snap: Snap, live: map<Address, int>, closed: seq<map<Address, int>>)

  function Started(): World {
    World(Initial(), map[], [])
  }

  function Observe(w: World, c: Call): World {
    var snap := Step(w.snap, c);
    match c
    case StakeCall(user, amount) =>
      if Stake(w.snap, user, amount).Ok? then World(snap, w.live[user := GetOr(w.live, user, 0) + amount], w.closed) else w
    case UnstakeCall(user, amount) =>
      if Unstake(w.snap, user, amount).Ok? then World(snap, w.live[user := GetOr(w.live, user, 0) - amount], w.closed) else w
    case AdvanceCall => World(snap, w.live, w.closed + [w.live])
    case RecordCall(_) => World(snap, w.live, w.closed)
    case RegistryCall(_) => World(snap, w.live, w.closed)
  }

  function Watch(w: World, calls: seq<Call>): World {
    if calls == [] then w else Observe(Watch(w, calls[..|calls| - 1]), calls[|calls| - 1])
  }

  /** The call does not run an unchecked sum out of its type. */
  predicate Fits(s: Snap, c: Call) {
    match c
    case StakeCall(_, amount) => s.halted || amount <= 0 || s.totalStaked + amount <= I128_MAX
    case AdvanceCall => s.epoch < U32_MAX
    case _ => true
  }

  predicate AllFit(w: World, calls: seq<Call>) {
    calls == [] ||
    (AllFit(w, calls[..|calls| - 1]) && Fits(Watch(w, calls[..|calls| - 1]).snap, calls[|calls| - 1]))
  }

  /** u's true balance at the end of epoch e, or now for an epoch that is still open. */
  function TrueBalance(w: World, user: Address, epoch: nat): int {
    GetOr(if epoch < |w.closed| then w.closed[epoch] else w.live, user, 0)
  }

  // ---- the invariant ----

  /** What is stored about one user. */
  ghost predicate UserTracked(w: World, user: Address) {
    user in w.snap.lastEpoch ==>
      var last := w.snap.lastEpoch[user];
      && user in w.live && 0 <= w.live[user]
      && last <= w.snap.epoch
      && (user, last) in w.snap.checkpoints && w.snap.checkpoints[(user, last)] == w.live[user]
      && forall e {:trigger TrueBalance(w, user, e)} :: last <= e ==> TrueBalance(w, user, e) == w.live[user]
  }

  ghost predicate CheckpointTrue(w: World, k: CheckpointKey) {
    k in w.snap.checkpoints ==>
      && k.0 in w.snap.lastEpoch && k.1 <= w.snap.lastEpoch[k.0]
      && w.snap.checkpoints[k] == TrueBalance(w, k.0, k.1)
  }

  ghost predicate EpochFrozen(w: World, e: nat) {
    if e < |w.closed| then
      && e in w.snap.epochTotals && w.snap.epochTotals[e] == Sum(w.closed[e])
      && w.closed[e].Keys <= w.snap.lastEpoch.Keys
      && forall u :: u in w.closed[e] ==> 0 <= w.closed[e][u]
    else e !in w.snap.epochTotals
  }

  ghost predicate Inv(w: World) {
    && |w.closed| == w.snap.epoch
    && w.live.Keys == w.snap.lastEpoch.Keys
    && w.snap.totalStaked == Sum(w.live)
    && w.snap.totalStaked <= I128_MAX
    && (forall u {:trigger UserTracked(w, u)} :: UserTracked(w, u))
    && (forall k {:trigger CheckpointTrue(w, k)} :: CheckpointTrue(w, k))
    && (forall e {:trigger EpochFrozen(w, e)} :: EpochFrozen(w, e))
  }

  /** At the open epoch the contract's answer is the live balance. */
  lemma LiveBalance(w: World, user: Address)
    requires Inv(w)
    ensures BalanceAt(w.snap, user, w.snap.epoch) == GetOr(w.live, user, 0)
    ensures 0 <= GetOr(w.live, user, 0) <= w.snap.totalStaked
  {
    assert UserTracked(w, user);
    assert CheckpointTrue(w, (user, w.snap.epoch));
    forall u | u in w.live ensures 0 <= w.live[u] { assert UserTracked(w, u); }
    SumNonNegative(w.live);
    if user in w.live {
      ValueAtMostSum(w.live, user);
    }
  }

  /** A balance change at the open epoch, in the contract and in the books alike. */
  ghost predicate IsMove(w: World, v: World, user: Address, balance: int) {
    && v.closed == w.closed && v.live == w.live[user := balance] && 0 <= balance
    && v.snap.epoch == w.snap.epoch && v.snap.epochTotals == w.snap.epochTotals
    && v.snap.checkpoints == w.snap.checkpoints[(user, w.snap.epoch) := balance]
    && v.snap.lastEpoch == w.snap.lastEpoch[user := w.snap.epoch]
    && v.snap.totalStaked == w.snap.totalStaked + balance - GetOr(w.live, user, 0) <= I128_MAX
  }

  lemma MoveKeeps(w: World, v: World, user: Address, balance: int)
    requires Inv(w) && IsMove(w, v, user, balance)
    ensures Inv(v)
  {
    SumStore(w.live, user, balance);
    forall u ensures UserTracked(v, u) { assert UserTracked(w, u); MoveUser(w, v, user, balance, u); }
    forall k ensures CheckpointTrue(v, k) { assert CheckpointTrue(w, k) && UserTracked(w, k.0); MoveCheckpoint(w, v, user, balance, k); }
    forall e ensures EpochFrozen(v, e) { assert EpochFrozen(w, e); }
  }

  lemma MoveUser(w: World, v: World, user: Address, balance: int, u: Address)
    requires IsMove(w, v, user, balance) && |w.closed| == w.snap.epoch && UserTracked(w, u)
    ensures UserTracked(v, u)
  {
    if u != user && u in w.snap.lastEpoch {
      var last := w.snap.lastEpoch[u];
      forall e {:trigger TrueBalance(v, u, e)} | last <= e
        ensures TrueBalance(v, u, e) == v.live[u]
      {
        assert TrueBalance(w, u, e) == w.live[u];
      }
    }
  }

  lemma MoveCheckpoint(w: World, v: World, user: Address, balance: int, k: CheckpointKey)
    requires IsMove(w, v, user, balance) && |w.closed| == w.snap.epoch && CheckpointTrue(w, k) && UserTracked(w, k.0)
    ensures CheckpointTrue(v, k)
  {
  }

  lemma AdvanceKeeps(w: World)
    requires Inv(w) && Fits(w.snap, AdvanceCall)
    ensures Inv(Observe(w, AdvanceCall))
  {
    var v := Observe(w, AdvanceCall);
    assert |v.closed| == v.snap.epoch;
    forall u ensures UserTracked(v, u) { assert UserTracked(w, u); AdvanceUser(w, v, u); }
    forall k ensures CheckpointTrue(v, k) { assert CheckpointTrue(w, k) && UserTracked(w, k.0); }
    forall e ensures EpochFrozen(v, e) {
      assert EpochFrozen(w, e);
      if e == w.snap.epoch {
        forall u | u in w.live ensures 0 <= w.live[u] { assert UserTracked(w, u); }
      }
    }
  }

  lemma AdvanceUser(w: World, v: World, u: Address)
    requires |w.closed| == w.snap.epoch && v == World(v.snap, w.live, w.closed + [w.live])
    requires v.snap == w.snap.(epochTotals := v.snap.epochTotals, epochSnapshots := v.snap.epochSnapshots, epoch := w.snap.epoch + 1)
    requires UserTracked(w, u)
    ensures UserTracked(v, u)
  {
    if u in w.snap.lastEpoch {
      forall e {:trigger TrueBalance(v, u, e)} | w.snap.lastEpoch[u] <= e
        ensures TrueBalance(v, u, e) == v.live[u]
      {
        assert TrueBalance(w, u, e) == w.live[u];
      }
    }
  }

  /** Neither the epoch records nor the registry's answer are in the books. */
  lemma SameBooksKeep(w: World, v: World)
    requires Inv(w) && v.live == w.live && v.closed == w.closed
    requires v.snap == w.snap.(epochSnapshots := v.snap.epochSnapshots, halted := v.snap.halted)
    ensures Inv(v)
  {
    forall u ensures UserTracked(v, u) {
      assert UserTracked(w, u);
      if u in w.snap.lastEpoch {
        forall e {:trigger TrueBalance(v, u, e)} | w.snap.lastEpoch[u] <= e
          ensures TrueBalance(v, u, e) == v.live[u]
        {
          assert TrueBalance(w, u, e) == w.live[u];
        }
      }
    }
    forall k ensures CheckpointTrue(v, k) { assert CheckpointTrue(w, k); }
    forall e ensures EpochFrozen(v, e) { assert EpochFrozen(w, e); }
  }

  lemma StepKeeps(w: World, c: Call)
    requires Inv(w) && Fits(w.snap, c)
    ensures Inv(Observe(w, c))
  {
    match c
    case StakeCall(user, amount) =>
      LiveBalance(w, user);
      if Stake(w.snap, user, amount).Ok? {
        MoveKeeps(w, Observe(w, c), user, GetOr(w.live, user, 0) + amount);
      }
    case UnstakeCall(user, amount) =>
      LiveBalance(w, user);
      if Unstake(w.snap, user, amount).Ok? {
        MoveKeeps(w, Observe(w, c), user, GetOr(w.live, user, 0) - amount);
      }
    case AdvanceCall =>
      AdvanceKeeps(w);
    case RecordCall(epoch) =>
      SameBooksKeep(w, Observe(w, c));
    case RegistryCall(halt) =>
      SameBooksKeep(w, Observe(w, c));
  }

  lemma {:induction false} WatchKeeps(w: World, calls: seq<Call>)
    requires Inv(w) && AllFit(w, calls)
    ensures Inv(Watch(w, calls))
  {
    if calls != [] {
      WatchKeeps(w, calls[..|calls| - 1]);
      StepKeeps(Watch(w, calls[..|calls| - 1]), calls[|calls| - 1]);
    }
  }

  // ---- when an unchecked sum does wrap ----

  /** A stake keeps the books right exactly when it fails or the new total is an `i128`. */
  lemma StakeSafeIff(w: World, user: Address, amount: int)
    requires Inv(w)
    ensures Inv(Observe(w, StakeCall(user, amount))) <==> Fits(w.snap, StakeCall(user, amount))
  {
    LiveBalance(w, user);
    if Fits(w.snap, StakeCall(user, amount)) {
      StepKeeps(w, StakeCall(user, amount));
    } else {
      SumStore(w.live, user, GetOr(w.live, user, 0) + amount);
    }
  }

  /** Closing an epoch keeps them exactly when the epoch counter does not wrap. */
  lemma AdvanceSafeIff(w: World)
    requires Inv(w)
    ensures Inv(Observe(w, AdvanceCall)) <==> w.snap.epoch < U32_MAX
  {
    if w.snap.epoch < U32_MAX {
      AdvanceKeeps(w);
    }
  }

  lemma StepKeepsIff(w: World, c: Call)
    requires Inv(w)
    ensures Inv(Observe(w, c)) <==> Fits(w.snap, c)
  {
    match c
    case StakeCall(user, amount) => StakeSafeIff(w, user, amount);
    case AdvanceCall => AdvanceSafeIff(w);
    case _ => StepKeeps(w, c);
  }

  /** The books are right after every call of a run. */
  ghost predicate InvThroughout(w: World, calls: seq<Call>) {
    Inv(Watch(w, calls)) && (calls == [] || InvThroughout(w, calls[..|calls| - 1]))
  }

  /** Watching does not interfere. */
  lemma {:induction false} WatchIsRun(calls: seq<Call>)
    ensures Watch(Started(), calls).snap == Run(Initial(), calls)
  {
    if calls != [] {
      WatchIsRun(calls[..|calls| - 1]);
    }
  }

  /** A run of any calls keeps the books right all along exactly when every one of them fits. */
  lemma {:induction false} InvThroughoutIff(calls: seq<Call>)
    ensures InvThroughout(Started(), calls) <==> AllFit(Started(), calls)
    ensures Watch(Started(), calls).snap == Run(Initial(), calls)
  {
    WatchIsRun(calls);
    if calls == [] {
      assert Inv(Started());
    } else {
      var init := calls[..|calls| - 1];
      InvThroughoutIff(init);
      if AllFit(Started(), init) {
        ReachableInv(init);
        StepKeepsIff(Watch(Started(), init), calls[|calls| - 1]);
      }
    }
  }

  /** The invariant in every state reachable by calls that fit. */
  lemma ReachableInv(calls: seq<Call>)
    requires AllFit(Started(), calls)
    ensures Inv(Watch(Started(), calls))
  {
    assert Inv(Started());
    WatchKeeps(Started(), calls);
  }
}
