/** Each call moves exactly what it says it moves: the quotes are the fairest possible, the
    recorded reserves match the tokens that really changed hands, and nobody else's shares move. */
module AmmFlows {
  import opened Host
  import opened Arith
  import opened AmmModel
  import opened AmmTheorems

  /** A later deposit mints the greatest number of shares that is proportionally paid for on both
      sides. */
  lemma DepositMintsLargestFair(p: Pool, from: Address, amountA: int, amountB: int, receivedA: int, receivedB: int, m: nat)
    requires 0 < p.totalShares && Deposit(p, from, amountA, amountB, receivedA, receivedB).Ok?
    ensures m <= Deposit(p, from, amountA, amountB, receivedA, receivedB).value.1
            <==> m * p.reserveA <= receivedA * p.totalShares && m * p.reserveB <= receivedB * p.totalShares
  {
    FloorAtLeast(m, receivedA * p.totalShares, p.reserveA);
    FloorAtLeast(m, receivedB * p.totalShares, p.reserveB);
  }

  /** A withdrawal pays the greatest amount of each token that the shares are worth. */
  lemma WithdrawPaysLargestFair(p: Pool, from: Address, shares: int, a: nat)
    requires Withdraw(p, from, shares).Ok?
    ensures var (amountA, amountB) := Withdraw(p, from, shares).value.1;
      && (a <= amountA <==> a * p.totalShares <= shares * p.reserveA)
      && (a <= amountB <==> a * p.totalShares <= shares * p.reserveB)
  {
    FloorAtLeast(a, shares * p.reserveA, p.totalShares);
    FloorAtLeast(a, shares * p.reserveB, p.totalShares);
  }

  // ---- reserves and tokens ----

  /** What everybody holds of a token, the pool itself included. */
  type Wallets = map<Address, int>

  function Held(w: Wallets, who: Address): int {
    GetOr(w, who, 0)
  }

  /** A transfer of which `received` arrives; a token may keep the rest as its fee. */
  function Send(w: Wallets, from: Address, to: Address, sent: int, received: int): Wallets {
    var paid := w[from := Held(w, from) - sent];
    paid[to := Held(paid, to) + received]
  }

  /** The pool, at its own address, and the ledgers of its two tokens. */
  datatype Market = Market(pool: Pool, self: Address, a: Wallets, b: Wallets)

  datatype Event =
    | Made(who: Address, call: Call)
    | Gift(who: Address, ofA: nat, ofB: nat)

  /** A call with the transfers it makes, or tokens sent to the pool without a call. */
  function Act(m: Market, e: Event): Market {
    match e
    case Gift(who, ofA, ofB) => m.(a := Send(m.a, who, m.self, ofA, ofA), b := Send(m.b, who, m.self, ofB, ofB))
    case Made(who, c) => Settle(m.(pool := Step(m.pool, c)), who, c, m.pool)
  }

  function Settle(m: Market, who: Address, c: Call, before: Pool): Market {
    match c
    case DepositCall(from, a, b, ra, rb) =>
      if Deposit(before, from, a, b, ra, rb).Ok?
      then m.(a := Send(m.a, who, m.self, a, ra), b := Send(m.b, who, m.self, b, rb))
      else m
    case SwapCall(token, dx, least) =>
      (match Answer(Swap(before, token, dx, least))
       case Ok(out) =>
         if token == TokenA then m.(a := Send(m.a, who, m.self, dx, dx), b := Send(m.b, m.self, who, out, out))
         else m.(b := Send(m.b, who, m.self, dx, dx), a := Send(m.a, m.self, who, out, out))
       case Err(_) => m)
    case WithdrawCall(from, n) =>
      (match Answer(Withdraw(before, from, n))
       case Ok(paid) => m.(a := Send(m.a, m.self, who, paid.0, paid.0), b := Send(m.b, m.self, who, paid.1, paid.1))
       case Err(_) => m)
    case SetPausedCall(caller, paused) => m
  }

  function Play(m: Market, events: seq<Event>): Market {
    if events == [] then m else Act(Play(m, events[..|events| - 1]), events[|events| - 1])
  }

  function GiftsA(events: seq<Event>): nat {
    if events == [] then 0
    else GiftsA(events[..|events| - 1]) + (if events[|events| - 1].Gift? then events[|events| - 1].ofA else 0)
  }

  function GiftsB(events: seq<Event>): nat {
    if events == [] then 0
    else GiftsB(events[..|events| - 1]) + (if events[|events| - 1].Gift? then events[|events| - 1].ofB else 0)
  }

  /** The pool holds its recorded reserves and these gifts. */
  predicate Holds(m: Market, giftsA: int, giftsB: int) {
    Held(m.a, m.self) == m.pool.reserveA + giftsA && Held(m.b, m.self) == m.pool.reserveB + giftsB
  }

  lemma SentTo(w: Wallets, from: Address, to: Address, sent: int, received: int)
    requires from != to
    ensures Held(Send(w, from, to, sent, received), to) == Held(w, to) + received
    ensures Held(Send(w, from, to, sent, received), from) == Held(w, from) - sent
  {
  }

  lemma DepositSettles(m: Market, who: Address, from: Address, a: int, b: int, ra: int, rb: int, giftsA: int, giftsB: int)
    requires Holds(m, giftsA, giftsB) && who != m.self
    ensures Holds(Act(m, Made(who, DepositCall(from, a, b, ra, rb))), giftsA, giftsB)
  {
    SentTo(m.a, who, m.self, a, ra);
    SentTo(m.b, who, m.self, b, rb);
  }

  lemma SwapSettles(m: Market, who: Address, token: Token, dx: int, least: int, giftsA: int, giftsB: int)
    requires Holds(m, giftsA, giftsB) && who != m.self
    ensures Holds(Act(m, Made(who, SwapCall(token, dx, least))), giftsA, giftsB)
  {
    if Swap(m.pool, token, dx, least).Ok? {
      SwapEffect(m.pool, token, dx, least);
      var out := Swap(m.pool, token, dx, least).value.1;
      SentTo(if token == TokenA then m.a else m.b, who, m.self, dx, dx);
      SentTo(if token == TokenA then m.b else m.a, m.self, who, out, out);
    }
  }

  lemma WithdrawSettles(m: Market, who: Address, from: Address, n: int, giftsA: int, giftsB: int)
    requires Holds(m, giftsA, giftsB) && who != m.self
    ensures Holds(Act(m, Made(who, WithdrawCall(from, n))), giftsA, giftsB)
  {
    if Withdraw(m.pool, from, n).Ok? {
      var (a, b) := Withdraw(m.pool, from, n).value.1;
      SentTo(m.a, m.self, who, a, a);
      SentTo(m.b, m.self, who, b, b);
    }
  }

  lemma ActHolds(m: Market, e: Event, giftsA: int, giftsB: int)
    requires Holds(m, giftsA, giftsB) && e.who != m.self
    ensures Holds(Act(m, e), giftsA + (if e.Gift? then e.ofA else 0), giftsB + (if e.Gift? then e.ofB else 0))
    ensures Act(m, e).self == m.self
  {
    match e
    case Gift(who, ofA, ofB) =>
      SentTo(m.a, who, m.self, ofA, ofA);
      SentTo(m.b, who, m.self, ofB, ofB);
    case Made(who, c) =>
      match c
      case DepositCall(from, a, b, ra, rb) => DepositSettles(m, who, from, a, b, ra, rb, giftsA, giftsB);
      case SwapCall(token, dx, least) => SwapSettles(m, who, token, dx, least, giftsA, giftsB);
      case WithdrawCall(from, n) => WithdrawSettles(m, who, from, n, giftsA, giftsB);
      case SetPausedCall(caller, paused) =>
  }

  /** A pool that starts with what it has recorded: over any run its balance of each token is the
      recorded reserve and what was sent to it without a call. */
  lemma {:induction false} BalancesAreReservesAndGifts(m: Market, events: seq<Event>)
    requires Holds(m, 0, 0) && forall i :: 0 <= i < |events| ==> events[i].who != m.self
    ensures Holds(Play(m, events), GiftsA(events), GiftsB(events)) && Play(m, events).self == m.self
  {
    if events != [] {
      var init, last := events[..|events| - 1], events[|events| - 1];
      BalancesAreReservesAndGifts(m, init);
      ActHolds(Play(m, init), last, GiftsA(init), GiftsB(init));
    }
  }

  /** So the recorded reserves are the tokens the pool actually holds exactly when nobody sent it
      any on the side. */
  lemma ReservesMatchHoldings(m: Market, events: seq<Event>)
    requires Holds(m, 0, 0) && forall i :: 0 <= i < |events| ==> events[i].who != m.self
    ensures var n := Play(m, events);
      && (Held(n.a, n.self) == n.pool.reserveA <==> GiftsA(events) == 0)
      && (Held(n.b, n.self) == n.pool.reserveB <==> GiftsB(events) == 0)
  {
    BalancesAreReservesAndGifts(m, events);
  }

  /** Five tokens sent to a new pool are held and not recorded. */
  lemma GiftUnrecorded(admin: Address, self: Address, who: Address)
    requires who != self
    ensures var m := Play(Market(Empty(admin), self, map[], map[]), [Gift(who, 5, 0)]);
      Held(m.a, self) == 5 && m.pool.reserveA == 0
  {
    var e := Gift(who, 5, 0);
    assert [e][..0] == [];
    SentTo(map[], who, self, 5, 5);
  }

  // ---- shares and users ----

  /** Shares gained (lost, if negative) by a user in one call, read off the call and its answer. */
  function SharesGained(p: Pool, c: Call, user: Address): int {
    match c
    case DepositCall(from, a, b, ra, rb) =>
      if from == user && Deposit(p, from, a, b, ra, rb).Ok? then Deposit(p, from, a, b, ra, rb).value.1 else 0
    case WithdrawCall(from, n) => if from == user && Withdraw(p, from, n).Ok? then -n else 0
    case _ => 0
  }

  function SharesEarned(p: Pool, calls: seq<Call>, user: Address): int {
    if calls == [] then p.SharesOf(user)
    else
      var init := calls[..|calls| - 1];
      SharesEarned(p, init, user) + SharesGained(Run(p, init), calls[|calls| - 1], user)
  }

  lemma StepMatchesShares(p: Pool, c: Call, user: Address)
    ensures Step(p, c).SharesOf(user) == p.SharesOf(user) + SharesGained(p, c, user)
  {
    match c
    case SwapCall(token, dx, least) => if Swap(p, token, dx, least).Ok? { SwapEffect(p, token, dx, least); }
    case _ =>
  }

  /** Over any run a user's shares are what that user's own deposits minted less what that user
      withdrew: no call by anyone else touches them. */
  lemma {:induction false} SharesAreOwn(p: Pool, calls: seq<Call>, user: Address)
    ensures Run(p, calls).SharesOf(user) == SharesEarned(p, calls, user)
  {
    if calls != [] {
      SharesAreOwn(p, calls[..|calls| - 1], user);
      StepMatchesShares(Run(p, calls[..|calls| - 1]), calls[|calls| - 1], user);
    }
  }
}
