/**
 Referral registrations and rewards.  Every referee points to one referrer; registration
 walks at most a hundred steps up that chain to refuse circular referrals.

 The walk is bounded, so the graph is kept free of short cycles only; the exact limits are
 proved below, with the run that first closes a cycle.
 */
module Referrals {
  import opened Common
  import opened FixedPoint

  datatype Error = SelfReferral | ReferralAlreadySet | CircularReferral | ReferralLimitExceeded

  const WINDOW_SECS: nat := 90 * 24 * 60 * 60
  const REWARD_PCT := 10
  const MAX_ACTIVE: nat := 100
  const MAX_TRADES: nat := 100

  datatype Entry = Entry(referrer: Address, signupTs: nat, tradeCount: nat)

  datatype Stats = Stats(total: nat, active: nat, earnings: int, byAsset: map<nat, int>)

  type Entries = map<Address, Entry>

  datatype State = State(entries: Entries, stats: map<Address, Stats>)

  const EMPTY := State(map[], map[])

  function StatsOf(stats: map<Address, Stats>, a: Address): Stats {
    if a in stats then stats[a] else Stats(0, 0, 0, map[])
  }

  // ---------- The referrer chain ----------

  /** The k-th referrer above `a`, if the chain is that long. */
  function Up(e: Entries, a: Address, k: nat): Option<Address> {
    if k == 0 then Some(a)
    else match Up(e, a, k - 1)
      case None => None
      case Some(b) => if b in e then Some(e[b].referrer) else None
  }

  ghost predicate Above(e: Entries, start: Address, candidate: Address, limit: nat) {
    exists k :: 1 <= k <= limit && Up(e, start, k) == Some(candidate)
  }

  /** The bounded walk: it finds exactly the candidates within a hundred steps. */
  method HasCycle(e: Entries, start: Address, candidate: Address) returns (found: bool)
    ensures found <==> Above(e, start, candidate, 100)
  {
    var current := start;
    var i := 0;
    while i < MAX_ACTIVE
      invariant 0 <= i <= MAX_ACTIVE
      invariant Up(e, start, i) == Some(current)
      invariant !Above(e, start, candidate, i)
    {
      if current in e {
        assert Up(e, start, i + 1) == Some(e[current].referrer);
        if e[current].referrer == candidate {
          return true;
        }
        current := e[current].referrer;
      } else {
        assert Up(e, start, i + 1) == None;
        EndedChain(e, start, i + 1);
        return false;
      }
      i := i + 1;
    }
    found := false;
  }

  lemma EndedChain(e: Entries, a: Address, k: nat)
    requires Up(e, a, k) == None
    ensures forall j :: j >= k ==> Up(e, a, j) == None
  {
    forall j | j >= k ensures Up(e, a, j) == None {
      EndedChainAt(e, a, k, j);
    }
  }

  lemma {:induction false} EndedChainAt(e: Entries, a: Address, k: nat, j: nat)
    requires Up(e, a, k) == None && j >= k
    ensures Up(e, a, j) == None
    decreases j
  {
    if j > k {
      EndedChainAt(e, a, k, j - 1);
    }
  }

  // ---------- Transitions ----------

  datatype Registration = Registered(next: State) | Refused(error: Error)

  /** Registering `referrer` for `referee`. */
  ghost function Register(s: State, referee: Address, referrer: Address, now: nat): Registration {
    if referee == referrer then Refused(SelfReferral)
    else if referee in s.entries then Refused(ReferralAlreadySet)
    else if Above(s.entries, referrer, referee, MAX_ACTIVE) then Refused(CircularReferral)
    else
      var st := StatsOf(s.stats, referrer);
      if st.active >= MAX_ACTIVE then Refused(ReferralLimitExceeded)
      else Registered(State(s.entries[referee := Entry(referrer, now, 0)],
                            s.stats[referrer := st.(total := st.total + 1, active := st.active + 1)]))
  }

  function Decrement(n: nat): nat {
    if n > 0 then n - 1 else 0
  }

  predicate Expired(entry: Entry, now: nat) {
    now - entry.signupTs > WINDOW_SECS || entry.tradeCount >= MAX_TRADES
  }

  datatype Payment = Payment(next: State, reward: int)

  /** The reward step of one trade by `referee`. */
  function Reward(s: State, referee: Address, asset: nat, fee: int, now: nat): Payment {
    if referee !in s.entries then Payment(s, 0)
    else
      var entry := s.entries[referee];
      var st := StatsOf(s.stats, entry.referrer);
      if Expired(entry, now) then
        Payment(State(s.entries - {referee}, s.stats[entry.referrer := st.(active := Decrement(st.active))]), 0)
      else
        var reward := TruncDiv(fee * REWARD_PCT, 100);
        if reward <= 0 then Payment(s, 0)
        else
          var counted := entry.(tradeCount := entry.tradeCount + 1);
          var previous := if asset in st.byAsset then st.byAsset[asset] else 0;
          var paid := st.(earnings := st.earnings + reward, byAsset := st.byAsset[asset := previous + reward]);
          var final := if counted.tradeCount >= MAX_TRADES then paid.(active := Decrement(paid.active)) else paid;
          Payment(State(s.entries[referee := counted], s.stats[entry.referrer := final]), reward)
  }

  class ReferralBook {
    var entries: Entries
    var stats: map<Address, Stats>

    constructor ()
      ensures State(entries, stats) == EMPTY
    {
      entries, stats := map[], map[];
    }

    method SetReferrer(referee: Address, referrer: Address, now: nat) returns (error: Option<Error>)
      modifies this
      ensures match Register(old(State(entries, stats)), referee, referrer, now)
              case Refused(e) => error == Some(e) && State(entries, stats) == old(State(entries, stats))
              case Registered(next) => error == None && State(entries, stats) == next
    {
      if referee == referrer {
        return Some(SelfReferral);
      }
      if referee in entries {
        return Some(ReferralAlreadySet);
      }
      var cycle := HasCycle(entries, referrer, referee);
      if cycle {
        return Some(CircularReferral);
      }
      var st := StatsOf(stats, referrer);
      if st.active >= MAX_ACTIVE {
        return Some(ReferralLimitExceeded);
      }
      entries := entries[referee := Entry(referrer, now, 0)];
      stats := stats[referrer := st.(total := st.total + 1, active := st.active + 1)];
      error := None;
    }

    method ProcessReferralReward(referee: Address, asset: nat, fee: int, now: nat) returns (reward: int)
      modifies this
      ensures Payment(State(entries, stats), reward) == Reward(old(State(entries, stats)), referee, asset, fee, now)
    {
      if referee !in entries {
        return 0;
      }
      var entry := entries[referee];
      var elapsed := if now >= entry.signupTs then now - entry.signupTs else 0;
      if elapsed > WINDOW_SECS || entry.tradeCount >= MAX_TRADES {
        var st := StatsOf(stats, entry.referrer);
        if st.active > 0 {
          st := st.(active := st.active - 1);
        }
        stats := stats[entry.referrer := st];
        entries := entries - {referee};
        return 0;
      }
      reward := TruncDiv(fee * REWARD_PCT, 100);
      if reward <= 0 {
        return 0;
      }
      entry := entry.(tradeCount := entry.tradeCount + 1);
      entries := entries[referee := entry];
      var st := StatsOf(stats, entry.referrer);
      var prev := if asset in st.byAsset then st.byAsset[asset] else 0;
      st := st.(earnings := st.earnings + reward, byAsset := st.byAsset[asset := prev + reward]);
      if entry.tradeCount >= MAX_TRADES {
        if st.active > 0 {
          st := st.(active := st.active - 1);
        }
      }
      stats := stats[entry.referrer := st];
    }
  }

  // ---------- Cycles ----------

  /** No referral cycle with at most n members. */
  ghost predicate NoCycleUpTo(e: Entries, n: nat) {
    forall a: Address, k: nat :: 1 <= k <= n ==> Up(e, a, k) != Some(a)
  }

  ghost predicate Acyclic(e: Entries) {
    forall a: Address, k: nat :: 1 <= k ==> Up(e, a, k) != Some(a)
  }

  lemma {:induction false} UpCompose(e: Entries, a: Address, j: nat, b: Address, k: nat)
    requires Up(e, a, j) == Some(b)
    ensures Up(e, a, j + k) == Up(e, b, k)
    decreases k
  {
    if k > 0 {
      UpCompose(e, a, j, b, k - 1);
    }
  }

  /** Without visiting the new referee, a walk in the extended graph is a walk in the old one. */
  lemma {:induction false} UpAvoiding(e: Entries, g: Entries, x: Address, a: Address, k: nat)
    requires x in g && e - {x} == g - {x}
    requires forall j :: 0 <= j < k ==> Up(g, a, j) != Some(x)
    ensures Up(g, a, k) == Up(e, a, k)
    decreases k
  {
    if k > 0 {
      UpAvoiding(e, g, x, a, k - 1);
      var b := Up(g, a, k - 1);
      if b.Some? {
        assert b.value in g <==> b.value in g - {x};
        assert b.value in e <==> b.value in e - {x};
      }
    }
  }

  /** The first visit of x on a walk that reaches it. */
  lemma {:induction false} FirstVisit(e: Entries, a: Address, x: Address, n: nat) returns (m: nat)
    requires Up(e, a, n) == Some(x)
    ensures m <= n && Up(e, a, m) == Some(x)
    ensures forall j :: 0 <= j < m ==> Up(e, a, j) != Some(x)
    decreases n
  {
    if exists j :: 0 <= j < n && Up(e, a, j) == Some(x) {
      var j :| 0 <= j < n && Up(e, a, j) == Some(x);
      m := FirstVisit(e, a, x, j);
    } else {
      m := n;
    }
  }

  /** A cycle of k members in the extended graph passes through the new edge, or was there before. */
  lemma NewCycle(e: Entries, x: Address, entry: Entry, a: Address, k: nat)
    requires x !in e && entry.referrer != x
    requires k >= 1 && Up(e[x := entry], a, k) == Some(a)
    ensures Up(e, a, k) == Some(a) || Above(e, entry.referrer, x, k - 1)
  {
    var g := e[x := entry];
    if exists j :: 0 <= j < k && Up(g, a, j) == Some(x) {
      var j :| 0 <= j < k && Up(g, a, j) == Some(x);
      UpCompose(g, a, j, x, k - j);
      UpCompose(g, x, k - j, a, j);
      assert Up(g, x, k) == Some(x);
      assert Up(g, x, 1) == Some(entry.referrer) by {
        assert Up(g, x, 0) == Some(x);
      }
      UpCompose(g, x, 1, entry.referrer, k - 1);
      var m := FirstVisit(g, entry.referrer, x, k - 1);
      assert e - {x} == g - {x};
      UpAvoiding(e, g, x, entry.referrer, m);
      assert m >= 1;
    } else {
      assert e - {x} == g - {x};
      UpAvoiding(e, g, x, a, k);
    }
  }

  /** Removing an entry or changing its counters creates no walk. */
  lemma {:induction false} UpShrinks(e: Entries, g: Entries, a: Address, k: nat)
    requires forall x :: x in g ==> x in e && g[x].referrer == e[x].referrer
    ensures Up(g, a, k).Some? ==> Up(g, a, k) == Up(e, a, k)
    decreases k
  {
    if k > 0 {
      UpShrinks(e, g, a, k - 1);
    }
  }

  lemma RegisterKeepsShortAcyclic(s: State, referee: Address, referrer: Address, now: nat)
    requires NoCycleUpTo(s.entries, MAX_ACTIVE + 1)
    requires Register(s, referee, referrer, now).Registered?
    ensures NoCycleUpTo(Register(s, referee, referrer, now).next.entries, MAX_ACTIVE + 1)
  {
    var entry := Entry(referrer, now, 0);
    var g := s.entries[referee := entry];
    forall a: Address, k: nat | 1 <= k <= MAX_ACTIVE + 1 ensures Up(g, a, k) != Some(a) {
      if Up(g, a, k) == Some(a) {
        NewCycle(s.entries, referee, entry, a, k);
      }
    }
  }

  /** Up to its first visit of the new referee, an old walk is a walk of the extended graph. */
  lemma {:induction false} UpBefore(e: Entries, g: Entries, x: Address, a: Address, k: nat)
    requires x in g && x !in e && e == g - {x}
    requires forall j :: 0 <= j < k ==> Up(e, a, j) != Some(x)
    ensures Up(g, a, k) == Up(e, a, k)
    decreases k
  {
    if k > 0 {
      UpBefore(e, g, x, a, k - 1);
    }
  }

  /** An accepted registration keeps the graph acyclic exactly when the referee is not above the referrer. */
  lemma RegisterAcyclicIff(s: State, referee: Address, referrer: Address, now: nat)
    requires Acyclic(s.entries)
    requires Register(s, referee, referrer, now).Registered?
    ensures Acyclic(Register(s, referee, referrer, now).next.entries)
            <==> forall k :: k > 100 ==> Up(s.entries, referrer, k) != Some(referee)
  {
    var e, entry := s.entries, Entry(referrer, now, 0);
    var g := e[referee := entry];
    if forall k :: k > MAX_ACTIVE ==> Up(e, referrer, k) != Some(referee) {
      forall a: Address, k: nat | 1 <= k ensures Up(g, a, k) != Some(a) {
        if Up(g, a, k) == Some(a) {
          NewCycle(e, referee, entry, a, k);
        }
      }
    } else {
      var n :| n > MAX_ACTIVE && Up(e, referrer, n) == Some(referee);
      var m := FirstVisit(e, referrer, referee, n);
      UpBefore(e, g, referee, referrer, m);
      assert Up(g, referee, 0) == Some(referee);
      assert Up(g, referee, 1) == Some(referrer);
      UpCompose(g, referee, 1, referrer, m);
      assert Up(g, referee, 1 + m) == Some(referee);
    }
  }

  // ---------- Runs ----------

  datatype Op =
    | SetReferrer(referee: Address, referrer: Address, now: nat)
    | Trade(trader: Address, asset: nat, fee: int, at: nat)

  ghost function Step(s: State, op: Op): State {
    match op
    case SetReferrer(referee, referrer, now) =>
      (match Register(s, referee, referrer, now)
       case Registered(next) => next
       case Refused(_) => s)
    case Trade(trader, asset, fee, at) => Reward(s, trader, asset, fee, at).next
  }

  ghost function Run(ops: seq<Op>): State {
    if ops == [] then EMPTY else Step(Run(ops[..|ops| - 1]), ops[|ops| - 1])
  }

  lemma EmptyAcyclic()
    ensures Acyclic(EMPTY.entries)
  {
    forall a: Address, k: nat | 1 <= k ensures Up(EMPTY.entries, a, k) != Some(a) {
      assert Up(EMPTY.entries, a, 0) == Some(a);
      assert Up(EMPTY.entries, a, 1) == None;
      EndedChain(EMPTY.entries, a, 1);
    }
  }

  lemma RewardShrinks(s: State, trader: Address, asset: nat, fee: int, at: nat)
    ensures var g := Reward(s, trader, asset, fee, at).next.entries;
            forall x :: x in g ==> x in s.entries && g[x].referrer == s.entries[x].referrer
  {
  }

  /** After every run of registrations, trades and expiries there is no cycle of 101 or fewer members. */
  lemma {:induction false} NoShortCycle(ops: seq<Op>)
    ensures NoCycleUpTo(Run(ops).entries, 101)
    decreases |ops|
  {
    if ops == [] {
      EmptyAcyclic();
    } else {
      var s, op := Run(ops[..|ops| - 1]), ops[|ops| - 1];
      NoShortCycle(ops[..|ops| - 1]);
      match op {
        case SetReferrer(referee, referrer, now) =>
          if Register(s, referee, referrer, now).Registered? {
            RegisterKeepsShortAcyclic(s, referee, referrer, now);
          }
        case Trade(trader, asset, fee, at) =>
          var g := Step(s, op).entries;
          RewardShrinks(s, trader, asset, fee, at);
          forall a: Address, k: nat | 1 <= k <= MAX_ACTIVE + 1 ensures Up(g, a, k) != Some(a) {
            UpShrinks(s.entries, g, a, k);
          }
      }
    }
  }

  ghost predicate Accepts(s: State, op: Op) {
    op.SetReferrer? && Register(s, op.referee, op.referrer, op.now).Registered?
  }

  /** Every accepted registration of the run happens below a chain of at most a hundred referrers. */
  ghost predicate ShortChains(ops: seq<Op>) {
    forall i :: 0 <= i < |ops| && Accepts(Run(ops[..i]), ops[i]) ==>
      Up(Run(ops[..i]).entries, ops[i].referrer, 101) == None
  }

  /** As long as no referrer chain exceeds a hundred steps, the graph stays acyclic. */
  lemma {:induction false} AcyclicUnderShortChains(ops: seq<Op>)
    requires ShortChains(ops)
    ensures Acyclic(Run(ops).entries)
    decreases |ops|
  {
    if ops == [] {
      EmptyAcyclic();
    } else {
      var n := |ops| - 1;
      var s, op := Run(ops[..n]), ops[n];
      assert ShortChains(ops[..n]) by {
        assert forall i :: 0 <= i < n ==> ops[..n][..i] == ops[..i];
      }
      AcyclicUnderShortChains(ops[..n]);
      match op {
        case SetReferrer(referee, referrer, now) =>
          if Accepts(s, op) {
            EndedChain(s.entries, referrer, MAX_ACTIVE + 1);
            RegisterAcyclicIff(s, referee, referrer, now);
          }
        case Trade(trader, asset, fee, at) =>
          var g := Step(s, op).entries;
          RewardShrinks(s, trader, asset, fee, at);
          forall a: Address, k: nat | 1 <= k ensures Up(g, a, k) != Some(a) {
            UpShrinks(s.entries, g, a, k);
          }
      }
    }
  }

  // ---------- The bound is sharp ----------

  /** Registers 0 under 1, 1 under 2, and so on, n times. */
  function ChainOps(n: nat): seq<Op> {
    if n == 0 then [] else ChainOps(n - 1) + [SetReferrer(n - 1, n, 1)]
  }

  ghost predicate IsChain(s: State, n: nat) {
    && (forall a :: a in s.entries <==> 0 <= a < n)
    && (forall a :: 0 <= a < n ==> s.entries[a] == Entry(a + 1, 1, 0))
    && (forall a :: a in s.stats ==> 1 <= a <= n && s.stats[a].active <= 1)
  }

  lemma {:induction false} ChainUp(e: Entries, n: nat, k: nat)
    requires forall a :: 0 <= a < n ==> a in e && e[a].referrer == a + 1
    requires k <= n
    ensures Up(e, 0, k) == Some(k)
    decreases k
  {
    if k > 0 {
      ChainUp(e, n, k - 1);
    }
  }

  lemma {:induction false} ChainBuilds(n: nat)
    ensures IsChain(Run(ChainOps(n)), n)
  {
    if n > 0 {
      ChainBuilds(n - 1);
      var ops, s := ChainOps(n), Run(ChainOps(n - 1));
      assert ops[..|ops| - 1] == ChainOps(n - 1);
      assert Up(s.entries, n, 0) == Some(n) && Up(s.entries, n, 1) == None;
      EndedChain(s.entries, n, 1);
      assert !Above(s.entries, n, n - 1, MAX_ACTIVE);
      assert Register(s, n - 1, n, 1).Registered?;
    }
  }

  /** 102 members suffice: after 101 registrations in a row, the last referrer may register under the first referee. */
  lemma CycleOf102()
    ensures Up(Run(ChainOps(101) + [SetReferrer(101, 0, 1)]).entries, 0, 102) == Some(0)
  {
    var ops := ChainOps(101) + [SetReferrer(101, 0, 1)];
    var s := Run(ChainOps(101));
    ChainBuilds(101);
    assert ops[..|ops| - 1] == ChainOps(101);
    forall k | 1 <= k <= MAX_ACTIVE ensures Up(s.entries, 0, k) != Some(101) {
      ChainUp(s.entries, 101, k);
    }
    assert Register(s, 101, 0, 1).Registered?;
    var g := Run(ops).entries;
    ChainUp(g, 101, 101);
  }

  // ---------- Counters ----------

  /** Registered referees of r with fewer than a hundred rewarded trades, however long ago they signed up. */
  ghost function OpenReferees(s: State, r: Address): set<Address> {
    set a | a in s.entries && s.entries[a].referrer == r && s.entries[a].tradeCount < 100
  }

  ghost predicate TradesOk(e: Entries) {
    forall a :: a in e ==> e[a].tradeCount <= MAX_TRADES
  }

  /** The stored count of r's active referrals exceeds neither the cap nor r's entries under a hundred rewarded trades. */
  ghost predicate CounterOk(s: State, r: Address) {
    TradesOk(s.entries) && StatsOf(s.stats, r).active <= 100 && StatsOf(s.stats, r).active <= |OpenReferees(s, r)|
  }

  lemma RegisterKeepsCounter(s: State, referee: Address, referrer: Address, now: nat, r: Address)
    requires CounterOk(s, r) && Register(s, referee, referrer, now).Registered?
    ensures CounterOk(Register(s, referee, referrer, now).next, r)
  {
    var t := Register(s, referee, referrer, now).next;
    if r == referrer {
      assert OpenReferees(t, r) == OpenReferees(s, r) + {referee};
    } else {
      assert OpenReferees(t, r) == OpenReferees(s, r);
    }
  }

  lemma RewardKeepsCounter(s: State, trader: Address, asset: nat, fee: int, at: nat, r: Address)
    requires CounterOk(s, r)
    ensures CounterOk(Reward(s, trader, asset, fee, at).next, r)
  {
    var t := Reward(s, trader, asset, fee, at).next;
    var before, after := OpenReferees(s, r), OpenReferees(t, r);
    if trader in before && trader !in after {
      assert after == before - {trader};
      assert |after| == |before| - 1;
      assert StatsOf(t.stats, r).active == Decrement(StatsOf(s.stats, r).active);
    } else {
      assert after == before;
    }
  }

  /** Over every run the active count respects the cap and never exceeds the entries under a hundred rewarded trades. */
  lemma {:induction false} CounterHolds(ops: seq<Op>, r: Address)
    ensures CounterOk(Run(ops), r)
    decreases |ops|
  {
    if ops != [] {
      var n := |ops| - 1;
      CounterHolds(ops[..n], r);
      match ops[n] {
        case SetReferrer(referee, referrer, now) =>
          if Register(Run(ops[..n]), referee, referrer, now).Registered? {
            RegisterKeepsCounter(Run(ops[..n]), referee, referrer, now, r);
          }
        case Trade(trader, asset, fee, at) =>
          RewardKeepsCounter(Run(ops[..n]), trader, asset, fee, at, r);
      }
    }
  }

  /** The stored count is exactly the number of entries under a hundred rewarded trades. */
  ghost predicate Exact(s: State, r: Address) {
    StatsOf(s.stats, r).active == |OpenReferees(s, r)|
  }

  /** A further trade of a referee with a hundred rewarded trades, while r has entries with fewer. */
  ghost predicate SecondDeduction(s: State, op: Op, r: Address) {
    && op.Trade? && op.trader in s.entries && s.entries[op.trader].referrer == r
    && s.entries[op.trader].tradeCount >= 100 && OpenReferees(s, r) != {}
  }

  lemma RegisterKeepsExact(s: State, referee: Address, referrer: Address, now: nat, r: Address)
    requires Exact(s, r) && Register(s, referee, referrer, now).Registered?
    ensures Exact(Register(s, referee, referrer, now).next, r)
  {
    var t := Register(s, referee, referrer, now).next;
    if r == referrer {
      assert OpenReferees(t, r) == OpenReferees(s, r) + {referee};
    } else {
      assert OpenReferees(t, r) == OpenReferees(s, r);
    }
  }

  lemma RewardKeepsExactIff(s: State, trader: Address, asset: nat, fee: int, at: nat, r: Address)
    requires Exact(s, r)
    ensures Exact(Reward(s, trader, asset, fee, at).next, r) <==> !SecondDeduction(s, Trade(trader, asset, fee, at), r)
  {
    var t := Reward(s, trader, asset, fee, at).next;
    var before, after := OpenReferees(s, r), OpenReferees(t, r);
    if trader in before && trader !in after {
      assert after == before - {trader};
    } else {
      assert after == before;
    }
  }

  /** Exactly the second deduction makes the count fall below the entries under a hundred rewarded trades. */
  lemma ExactIffDeductedOnce(s: State, op: Op, r: Address)
    requires Exact(s, r)
    ensures Exact(Step(s, op), r) <==> !SecondDeduction(s, op, r)
  {
    match op
    case SetReferrer(referee, referrer, now) =>
      if Register(s, referee, referrer, now).Registered? {
        RegisterKeepsExact(s, referee, referrer, now, r);
      }
    case Trade(trader, asset, fee, at) =>
      RewardKeepsExactIff(s, trader, asset, fee, at, r);
  }

  /** A run without second deductions counts every referrer's entries under a hundred rewarded trades exactly. */
  lemma {:induction false} CountIsExact(ops: seq<Op>, r: Address)
    requires forall i :: 0 <= i < |ops| ==> !SecondDeduction(Run(ops[..i]), ops[i], r)
    ensures Exact(Run(ops), r)
    decreases |ops|
  {
    if ops == [] {
      assert OpenReferees(EMPTY, r) == {};
    } else {
      var front := ops[..|ops| - 1];
      assert forall i :: 0 <= i < |front| ==> ops[..i] == front[..i];
      CountIsExact(front, r);
      ExactIffDeductedOnce(Run(front), ops[|ops| - 1], r);
    }
  }

  /** Two referees under 9, the first of whom then trades n times. */
  function BusyOps(n: nat): seq<Op> {
    if n == 0 then [SetReferrer(1, 9, 1)] + [SetReferrer(2, 9, 1)] else BusyOps(n - 1) + [Trade(1, 0, 10, 1)]
  }

  ghost predicate Busy(s: State, n: nat) {
    && (forall a :: a in s.entries <==> a == 1 || a == 2)
    && s.entries[1] == Entry(9, 1, n) && s.entries[2] == Entry(9, 1, 0)
    && StatsOf(s.stats, 9).active == if n < MAX_TRADES then 2 else 1
  }

  lemma BusyTrade(s: State, n: nat)
    requires Busy(s, n) && n < MAX_TRADES
    ensures Busy(Reward(s, 1, 0, 10, 1).next, n + 1)
  {
  }

  lemma {:induction false} BusyRun(n: nat)
    requires n <= MAX_TRADES
    ensures Busy(Run(BusyOps(n)), n)
  {
    if n == 0 {
      BusyStart();
    } else {
      var ops := BusyOps(n);
      BusyRun(n - 1);
      assert ops[..|ops| - 1] == BusyOps(n - 1);
      BusyTrade(Run(BusyOps(n - 1)), n - 1);
    }
  }

  /** A referrer without a referrer of its own takes any new referee, up to the cap. */
  lemma RegisterUnderRoot(s: State, referee: Address, referrer: Address, now: nat)
    requires referee != referrer && referee !in s.entries && referrer !in s.entries
    requires StatsOf(s.stats, referrer).active < MAX_ACTIVE
    ensures Register(s, referee, referrer, now).Registered?
  {
    assert Up(s.entries, referrer, 0) == Some(referrer) && Up(s.entries, referrer, 1) == None;
    EndedChain(s.entries, referrer, 1);
  }

  lemma BusyStart()
    ensures Busy(Run(BusyOps(0)), 0)
  {
    var first, both := [SetReferrer(1, 9, 1)], BusyOps(0);
    assert first[..0] == [] && both[..1] == first;
    RegisterUnderRoot(EMPTY, 1, 9, 1);
    var s := Run(first);
    assert s == Register(EMPTY, 1, 9, 1).next;
    RegisterUnderRoot(s, 2, 9, 1);
    assert Run(both) == Register(s, 2, 9, 1).next;
  }

  /** A run with one exists: after 101 trades of one referee nobody counts as active while referee 2 has no trade yet. */
  lemma DeductedTwice()
    ensures var s := Run(BusyOps(101));
            StatsOf(s.stats, 9).active == 0 && OpenReferees(s, 9) == {2}
  {
    var ops := BusyOps(MAX_TRADES + 1);
    BusyRun(MAX_TRADES);
    assert ops[..|ops| - 1] == BusyOps(MAX_TRADES);
    var s := Run(ops);
    assert forall a :: a in s.entries <==> a == 2;
  }

  /** A reward is paid only to a live registration, and it is a tenth of the fee, rounded down. */
  lemma RewardIsATenth(s: State, trader: Address, asset: nat, fee: int, at: nat)
    ensures var reward := Reward(s, trader, asset, fee, at).reward;
            && reward >= 0
            && (reward > 0 ==> 10 * reward <= fee < 10 * reward + 10)
            && (reward > 0 <==> trader in s.entries && fee >= 10
                                && s.entries[trader].tradeCount < 100 && at <= s.entries[trader].signupTs + 7_776_000)
  {
  }

  /** A registration is accepted if and only if nothing stands in the way; it then adds one entry and counts once. */
  lemma RegisteredIff(s: State, referee: Address, referrer: Address, now: nat)
    ensures Register(s, referee, referrer, now).Registered? <==>
              && referee != referrer && referee !in s.entries && StatsOf(s.stats, referrer).active < 100
              && !Above(s.entries, referrer, referee, 100)
    ensures Register(s, referee, referrer, now).Registered? ==>
      var t, st := Register(s, referee, referrer, now).next, StatsOf(s.stats, referrer);
      && t.entries == s.entries[referee := Entry(referrer, now, 0)]
      && StatsOf(t.stats, referrer) == st.(total := st.total + 1, active := st.active + 1)
      && forall a :: a != referrer ==> StatsOf(t.stats, a) == StatsOf(s.stats, a)
    ensures Register(s, referee, referrer, now).Refused? ==>
      match Register(s, referee, referrer, now).error
      case SelfReferral => referee == referrer
      case ReferralAlreadySet => referee in s.entries
      case CircularReferral => Above(s.entries, referrer, referee, 100)
      case ReferralLimitExceeded => StatsOf(s.stats, referrer).active >= 100
  {
  }

  /** The registration has used up its 90 days or its 100 rewards. */
  predicate Over(entry: Entry, at: nat) {
    at > entry.signupTs + 7_776_000 || entry.tradeCount >= 100
  }

  /**
   The entries after a trade: one that is over is removed, a rewarded trade is counted, and
   nothing else happens to them.  Only the referrer's statistics change.
   */
  lemma TradeEffect(s: State, trader: Address, asset: nat, fee: int, at: nat)
    ensures var t, reward := Reward(s, trader, asset, fee, at).next, Reward(s, trader, asset, fee, at).reward;
            && t.entries == (if trader !in s.entries then s.entries
                             else if Over(s.entries[trader], at) then s.entries - {trader}
                             else if reward > 0 then s.entries[trader := s.entries[trader].(tradeCount := s.entries[trader].tradeCount + 1)]
                             else s.entries)
            && (forall a :: !(trader in s.entries && a == s.entries[trader].referrer) ==> StatsOf(t.stats, a) == StatsOf(s.stats, a))
            && (forall a :: StatsOf(t.stats, a).total == StatsOf(s.stats, a).total)
  {
  }

  /** Accepted registrations under r during a run. */
  ghost function RegistrationsUnder(ops: seq<Op>, r: Address): nat {
    if ops == [] then 0
    else
      var n := |ops| - 1;
      RegistrationsUnder(ops[..n], r) + if Accepts(Run(ops[..n]), ops[n]) && ops[n].referrer == r then 1 else 0
  }

  /** The stored total counts every accepted registration of the run, whatever became of it. */
  lemma {:induction false} TotalCountsRegistrations(ops: seq<Op>, r: Address)
    ensures StatsOf(Run(ops).stats, r).total == RegistrationsUnder(ops, r)
    decreases |ops|
  {
    if ops != [] {
      var n := |ops| - 1;
      var s := Run(ops[..n]);
      TotalCountsRegistrations(ops[..n], r);
      match ops[n] {
        case SetReferrer(referee, referrer, now) => RegisteredIff(s, referee, referrer, now);
        case Trade(trader, asset, fee, at) => TradeEffect(s, trader, asset, fee, at);
      }
    }
  }

  /** Rewards credited to referrer r during a run, over all assets or for one. */
  ghost function Credited(ops: seq<Op>, r: Address, asset: Option<nat>): int {
    if ops == [] then 0
    else
      var n := |ops| - 1;
      var s, op := Run(ops[..n]), ops[n];
      Credited(ops[..n], r, asset) +
      (if op.Trade? && op.trader in s.entries && s.entries[op.trader].referrer == r
          && (asset.None? || asset.value == op.asset)
       then Reward(s, op.trader, op.asset, op.fee, op.at).reward else 0)
  }

  function EarnedIn(st: Stats, asset: nat): int {
    if asset in st.byAsset then st.byAsset[asset] else 0
  }

  /** Stored earnings, in total and per asset, are exactly the rewards credited by the run. */
  lemma {:induction false} EarningsAreRewards(ops: seq<Op>, r: Address, asset: nat)
    ensures StatsOf(Run(ops).stats, r).earnings == Credited(ops, r, None)
    ensures EarnedIn(StatsOf(Run(ops).stats, r), asset) == Credited(ops, r, Some(asset))
    decreases |ops|
  {
    if ops != [] {
      EarningsAreRewards(ops[..|ops| - 1], r, asset);
    }
  }
}
