/**
 Replay of parsed contract events into a state snapshot.  Events are sorted by ledger and
 then by id, and folded one by one.

 An event id enters only through its place in the locale order, so it is represented by its
 rank there; several events may share a rank.
 */
module EventReplay {
  import opened Common

  datatype Body =
    | Staked(staker: string, stake: int)
    | Unstaked(unstaker: string, unstake: int)
    | TradeExecuted(signal: string, volume: int)
    | FeeCollected(fee: int)
    | OraclePrice(price: int)
    | Unknown(name: string)

  datatype Event = Event(ledger: nat, idRank: int, body: Body)

  datatype SignalStats = SignalStats(trades: nat, volume: int)

  /** Everything but the oracle price; the unhandled names are reported sorted, so a set determines them. */
  datatype Totals = Totals(
    lastLedger: nat, applied: nat, unhandled: set<string>,
    stakes: map<string, int>, signals: map<string, SignalStats>, fees: int)

  datatype Snapshot = Snapshot(totals: Totals, oraclePrice: Option<int>)

  const NO_TOTALS := Totals(0, 0, {}, map[], map[], 0)
  const EMPTY := Snapshot(NO_TOTALS, None)

  // ---------- The reducer ----------

  function StakeOf(stakes: map<string, int>, who: string): int {
    if who in stakes then stakes[who] else 0
  }

  function StakesAfter(stakes: map<string, int>, e: Event): map<string, int> {
    match e.body
    case Staked(who, amount) => stakes[who := StakeOf(stakes, who) + amount]
    case Unstaked(who, amount) => stakes[who := StakeOf(stakes, who) - amount]
    case _ => stakes
  }

  function SignalOf(signals: map<string, SignalStats>, id: string): SignalStats {
    if id in signals then signals[id] else SignalStats(0, 0)
  }

  function SignalsAfter(signals: map<string, SignalStats>, e: Event): map<string, SignalStats> {
    match e.body
    case TradeExecuted(id, volume) =>
      var entry := SignalOf(signals, id);
      signals[id := SignalStats(entry.trades + 1, entry.volume + volume)]
    case _ => signals
  }

  function AddTo(t: Totals, e: Event): Totals {
    Totals(
      if t.lastLedger < e.ledger then e.ledger else t.lastLedger,
      if e.body.Unknown? then t.applied else t.applied + 1,
      if e.body.Unknown? then t.unhandled + {e.body.name} else t.unhandled,
      StakesAfter(t.stakes, e),
      SignalsAfter(t.signals, e),
      if e.body.FeeCollected? then t.fees + e.body.fee else t.fees)
  }

  function Next(s: Snapshot, e: Event): Snapshot {
    Snapshot(AddTo(s.totals, e), if e.body.OraclePrice? then Some(e.body.price) else s.oraclePrice)
  }

  function Fold(s: Snapshot, events: seq<Event>): Snapshot {
    if events == [] then s else Next(Fold(s, events[..|events| - 1]), events[|events| - 1])
  }

  // ---------- Sorting ----------

  predicate KeyAtMost(a: Event, b: Event) {
    a.ledger < b.ledger || (a.ledger == b.ledger && a.idRank <= b.idRank)
  }

  /** Places an event behind every event whose key is not larger. */
  function Insert(s: seq<Event>, e: Event): seq<Event> {
    if s == [] || KeyAtMost(s[|s| - 1], e) then s + [e] else Insert(s[..|s| - 1], e) + [s[|s| - 1]]
  }

  /** The stable sort by ledger and id. */
  function Sort(events: seq<Event>): seq<Event> {
    if events == [] then [] else Insert(Sort(events[..|events| - 1]), events[|events| - 1])
  }

  function Replay(events: seq<Event>): Snapshot {
    Fold(EMPTY, Sort(events))
  }

  // ---------- The stateful form ----------

  class Reducer {
    var lastLedger: nat
    var applied: nat
    var unhandled: set<string>
    var stakes: map<string, int>
    var signals: map<string, SignalStats>
    var fees: int
    var oraclePrice: Option<int>

    function State(): Snapshot
      reads this
    {
      Snapshot(Totals(lastLedger, applied, unhandled, stakes, signals, fees), oraclePrice)
    }

    constructor ()
      ensures State() == EMPTY
    {
      lastLedger, applied, unhandled, stakes, signals, fees, oraclePrice := 0, 0, {}, map[], map[], 0, None;
    }

    /** Folds the body of one event in; false when no reducer handles it. */
    method Apply(e: Event) returns (handled: bool)
      modifies this
      ensures handled == !e.body.Unknown?
      ensures var t := Next(old(State()), e);
              State() == Snapshot(t.totals.(lastLedger := old(lastLedger), applied := old(applied), unhandled := old(unhandled)), t.oraclePrice)
    {
      handled := true;
      match e.body {
        case Staked(who, amount) =>
          stakes := stakes[who := (if who in stakes then stakes[who] else 0) + amount];
        case Unstaked(who, amount) =>
          stakes := stakes[who := (if who in stakes then stakes[who] else 0) - amount];
        case TradeExecuted(id, volume) =>
          var entry := if id in signals then signals[id] else SignalStats(0, 0);
          signals := signals[id := SignalStats(entry.trades + 1, entry.volume + volume)];
        case FeeCollected(fee) =>
          fees := fees + fee;
        case OraclePrice(price) =>
          oraclePrice := Some(price);
        case Unknown(_) =>
          handled := false;
      }
    }

    method ApplyAll(ordered: seq<Event>)
      modifies this
      ensures State() == Fold(old(State()), ordered)
    {
      for i := 0 to |ordered|
        invariant State() == Fold(old(State()), ordered[..i])
      {
        var event := ordered[i];
        assert ordered[..i + 1][..i] == ordered[..i];
        var handled := Apply(event);
        if handled {
          applied := applied + 1;
        } else {
          unhandled := unhandled + {event.body.name};
        }
        lastLedger := if lastLedger < event.ledger then event.ledger else lastLedger;
      }
      assert ordered[..|ordered|] == ordered;
    }
  }

  method ReplayEvents(events: seq<Event>) returns (s: Snapshot)
    ensures s == Replay(events)
  {
    var reducer := new Reducer();
    reducer.ApplyAll(Sort(events));
    s := reducer.State();
  }

  // ---------- Totals do not depend on the order ----------

  function Total(t: Totals, events: seq<Event>): Totals {
    if events == [] then t else AddTo(Total(t, events[..|events| - 1]), events[|events| - 1])
  }

  lemma {:induction false} FoldTotals(s: Snapshot, events: seq<Event>)
    ensures Fold(s, events).totals == Total(s.totals, events)
    decreases |events|
  {
    if events != [] {
      FoldTotals(s, events[..|events| - 1]);
    }
  }

  lemma StakesCommute(m: map<string, int>, a: Event, b: Event)
    ensures StakesAfter(StakesAfter(m, a), b) == StakesAfter(StakesAfter(m, b), a)
  {
  }

  lemma SignalsCommute(m: map<string, SignalStats>, a: Event, b: Event)
    ensures SignalsAfter(SignalsAfter(m, a), b) == SignalsAfter(SignalsAfter(m, b), a)
  {
  }

  /** Any two events may be swapped as far as the totals go. */
  lemma AddCommutes(t: Totals, a: Event, b: Event)
    ensures AddTo(AddTo(t, a), b) == AddTo(AddTo(t, b), a)
  {
    StakesCommute(t.stakes, a, b);
    SignalsCommute(t.signals, a, b);
  }

  lemma TotalNext(t: Totals, events: seq<Event>, e: Event)
    ensures Total(t, events + [e]) == AddTo(Total(t, events), e)
  {
    assert (events + [e])[..|events|] == events;
  }

  /** An event may be moved to the end. */
  lemma {:induction false} MoveToEnd(t: Totals, u: seq<Event>, e: Event, v: seq<Event>)
    ensures Total(t, u + [e] + v) == AddTo(Total(t, u + v), e)
    decreases |v|
  {
    if v == [] {
      assert u + [e] + v == u + [e] && u + v == u;
      TotalNext(t, u, e);
    } else {
      var w, x := v[..|v| - 1], v[|v| - 1];
      MoveToEnd(t, u, e, w);
      assert u + [e] + v == (u + [e] + w) + [x] && u + v == (u + w) + [x];
      TotalNext(t, u + [e] + w, x);
      TotalNext(t, u + w, x);
      AddCommutes(Total(t, u + w), e, x);
    }
  }

  lemma RemoveOne(w: seq<Event>, e: Event, u: seq<Event>, v: seq<Event>)
    requires multiset(w + [e]) == multiset(u + [e] + v)
    ensures multiset(w) == multiset(u + v)
  {
    assert multiset(w + [e]) == multiset(w) + multiset{e};
    assert multiset(u + [e] + v) == multiset(u) + multiset{e} + multiset(v);
    assert multiset(u + v) == multiset(u) + multiset(v);
    assert multiset(w) == multiset(w + [e]) - multiset{e};
    assert multiset(u + v) == multiset(u + [e] + v) - multiset{e};
  }

  /** Totals depend only on which events occur and how often. */
  lemma {:induction false} TotalOfPermutation(t: Totals, a: seq<Event>, b: seq<Event>)
    requires multiset(a) == multiset(b)
    ensures Total(t, a) == Total(t, b)
    decreases |a|
  {
    if a == [] {
      assert |multiset(b)| == 0;
    } else {
      var w, e := a[..|a| - 1], a[|a| - 1];
      assert a == w + [e];
      assert e in multiset(b);
      var i :| 0 <= i < |b| && b[i] == e;
      var u, v := b[..i], b[i + 1..];
      assert b == u + [e] + v;
      RemoveOne(w, e, u, v);
      TotalOfPermutation(t, w, u + v);
      MoveToEnd(t, u, e, v);
      TotalNext(t, w, e);
    }
  }

  lemma {:induction false} InsertPermutes(s: seq<Event>, e: Event)
    ensures multiset(Insert(s, e)) == multiset(s) + multiset{e}
    decreases |s|
  {
    if s != [] {
      assert s == s[..|s| - 1] + [s[|s| - 1]];
      InsertPermutes(s[..|s| - 1], e);
    }
  }

  lemma {:induction false} SortPermutes(events: seq<Event>)
    ensures multiset(Sort(events)) == multiset(events)
    decreases |events|
  {
    if events != [] {
      var w, e := events[..|events| - 1], events[|events| - 1];
      assert events == w + [e];
      SortPermutes(w);
      InsertPermutes(Sort(w), e);
    }
  }

  /** Replay totals are the totals of the events in any order, sorted or not. */
  lemma ReplayTotals(events: seq<Event>)
    ensures Replay(events).totals == Total(NO_TOTALS, events)
  {
    FoldTotals(EMPTY, Sort(events));
    SortPermutes(events);
    TotalOfPermutation(NO_TOTALS, Sort(events), events);
  }

  // ---------- What the totals are ----------

  function StakeChange(e: Event, who: string): int {
    match e.body
    case Staked(w, amount) => if w == who then amount else 0
    case Unstaked(w, amount) => if w == who then -amount else 0
    case _ => 0
  }

  /** Total staked minus total unstaked by one account. */
  function NetStake(events: seq<Event>, who: string): int {
    if events == [] then 0 else NetStake(events[..|events| - 1], who) + StakeChange(events[|events| - 1], who)
  }

  predicate Concerns(e: Event, who: string) {
    (e.body.Staked? && e.body.staker == who) || (e.body.Unstaked? && e.body.unstaker == who)
  }

  lemma {:induction false} TotalStakes(events: seq<Event>, who: string)
    ensures StakeOf(Total(NO_TOTALS, events).stakes, who) == NetStake(events, who)
    ensures who in Total(NO_TOTALS, events).stakes <==> exists i :: 0 <= i < |events| && Concerns(events[i], who)
    decreases |events|
  {
    if events != [] {
      var w, e := events[..|events| - 1], events[|events| - 1];
      TotalStakes(w, who);
      assert forall i :: 0 <= i < |w| ==> w[i] == events[i];
      if exists i :: 0 <= i < |events| && Concerns(events[i], who) {
        var i :| 0 <= i < |events| && Concerns(events[i], who);
        assert i < |w| ==> Concerns(w[i], who);
      }
      assert Concerns(e, who) ==> Concerns(events[|events| - 1], who);
    }
  }

  /** Each account's stake is what it staked minus what it unstaked, and only accounts with such events are listed. */
  lemma StakesAreNet(events: seq<Event>, who: string)
    ensures var t := Replay(events).totals;
            && StakeOf(t.stakes, who) == NetStake(events, who)
            && (who in t.stakes <==> exists i :: 0 <= i < |events| && Concerns(events[i], who))
  {
    ReplayTotals(events);
    TotalStakes(events, who);
  }

  function TradeCount(events: seq<Event>, id: string): nat {
    if events == [] then 0
    else TradeCount(events[..|events| - 1], id) +
         if events[|events| - 1].body.TradeExecuted? && events[|events| - 1].body.signal == id then 1 else 0
  }

  function TradeVolume(events: seq<Event>, id: string): int {
    if events == [] then 0
    else TradeVolume(events[..|events| - 1], id) +
         if events[|events| - 1].body.TradeExecuted? && events[|events| - 1].body.signal == id then events[|events| - 1].body.volume else 0
  }

  function FeeSum(events: seq<Event>): int {
    if events == [] then 0
    else FeeSum(events[..|events| - 1]) + if events[|events| - 1].body.FeeCollected? then events[|events| - 1].body.fee else 0
  }

  lemma {:induction false} TotalTrades(events: seq<Event>, id: string)
    ensures SignalOf(Total(NO_TOTALS, events).signals, id) == SignalStats(TradeCount(events, id), TradeVolume(events, id))
    ensures Total(NO_TOTALS, events).fees == FeeSum(events)
    decreases |events|
  {
    if events != [] {
      TotalTrades(events[..|events| - 1], id);
    }
  }

  /** Per signal the number and the volume of its trades, and the sum of all fees. */
  lemma TradesAndFees(events: seq<Event>, id: string)
    ensures var t := Replay(events).totals;
            SignalOf(t.signals, id) == SignalStats(TradeCount(events, id), TradeVolume(events, id)) && t.fees == FeeSum(events)
  {
    ReplayTotals(events);
    TotalTrades(events, id);
  }

  /** How many events have a reducer. */
  function HandledCount(events: seq<Event>): nat {
    if events == [] then 0 else HandledCount(events[..|events| - 1]) + if events[|events| - 1].body.Unknown? then 0 else 1
  }

  lemma {:induction false} TotalNames(events: seq<Event>)
    ensures var t := Total(NO_TOTALS, events);
            && (forall i :: 0 <= i < |events| ==> events[i].ledger <= t.lastLedger)
            && (t.lastLedger == 0 || exists i :: 0 <= i < |events| && events[i].ledger == t.lastLedger)
            && t.applied == HandledCount(events)
            && (forall name :: name in t.unhandled <==> exists i :: 0 <= i < |events| && events[i].body == Unknown(name))
    decreases |events|
  {
    if events != [] {
      var w, e := events[..|events| - 1], events[|events| - 1];
      TotalNames(w);
      var s, t := Total(NO_TOTALS, w), Total(NO_TOTALS, events);
      forall i | 0 <= i < |events| ensures events[i].ledger <= t.lastLedger {
        assert i < |w| ==> w[i] == events[i];
      }
      if s.lastLedger == t.lastLedger && s.lastLedger != 0 {
        var i :| 0 <= i < |w| && w[i].ledger == s.lastLedger;
        assert events[i].ledger == t.lastLedger;
      }
      forall name ensures name in t.unhandled <==> exists i :: 0 <= i < |events| && events[i].body == Unknown(name) {
        if name in s.unhandled {
          var i :| 0 <= i < |w| && w[i].body == Unknown(name);
          assert events[i].body == Unknown(name);
        }
        if i :| 0 <= i < |events| && events[i].body == Unknown(name) {
          assert i < |w| ==> w[i].body == Unknown(name);
        }
      }
    }
  }

  /** The last ledger is the highest one seen, every known event counts as applied, and exactly the unknown names are unhandled. */
  lemma LedgerAndNames(events: seq<Event>)
    ensures var t := Replay(events).totals;
            && (forall i :: 0 <= i < |events| ==> events[i].ledger <= t.lastLedger)
            && (t.lastLedger == 0 || exists i :: 0 <= i < |events| && events[i].ledger == t.lastLedger)
            && t.applied == HandledCount(events)
            && (forall name :: name in t.unhandled <==> exists i :: 0 <= i < |events| && events[i].body == Unknown(name))
  {
    ReplayTotals(events);
    TotalNames(events);
  }

  // ---------- The oracle price ----------

  /** The last price in a list. */
  function LastPrice(events: seq<Event>): Option<int> {
    if events == [] then None
    else if events[|events| - 1].body.OraclePrice? then Some(events[|events| - 1].body.price)
    else LastPrice(events[..|events| - 1])
  }

  lemma {:induction false} FoldPrice(s: Snapshot, events: seq<Event>)
    ensures Fold(s, events).oraclePrice == if LastPrice(events).Some? then LastPrice(events) else s.oraclePrice
    decreases |events|
  {
    if events != [] {
      FoldPrice(s, events[..|events| - 1]);
    }
  }

  ghost predicate Ordered(s: seq<Event>) {
    forall i, j :: 0 <= i < j < |s| ==> KeyAtMost(s[i], s[j])
  }

  lemma {:induction false} InsertOrdered(s: seq<Event>, e: Event)
    requires Ordered(s)
    ensures Ordered(Insert(s, e))
    decreases |s|
  {
    if s != [] && !KeyAtMost(s[|s| - 1], e) {
      var w, x := s[..|s| - 1], s[|s| - 1];
      InsertOrdered(w, e);
      InsertPermutes(w, e);
      var r := Insert(w, e);
      forall i | 0 <= i < |r| ensures KeyAtMost(r[i], x) {
        assert r[i] in multiset(r);
        assert r[i] == e || r[i] in w;
      }
    }
  }

  lemma {:induction false} SortOrdered(events: seq<Event>)
    ensures Ordered(Sort(events))
    decreases |events|
  {
    if events != [] {
      SortOrdered(events[..|events| - 1]);
      InsertOrdered(Sort(events[..|events| - 1]), events[|events| - 1]);
    }
  }

  /** A price event that no other price event outranks. */
  ghost predicate Latest(events: seq<Event>, e: Event) {
    && e in events && e.body.OraclePrice?
    && forall x :: x in events && x.body.OraclePrice? ==> KeyAtMost(x, e)
  }

  /** In an ordered list the last price is the price of a latest price event. */
  lemma {:induction false} LastPriceIsLatest(s: seq<Event>)
    requires Ordered(s)
    ensures LastPrice(s).Some? ==> exists e :: Latest(s, e) && LastPrice(s) == Some(e.body.price)
    ensures LastPrice(s).None? ==> forall x :: x in s ==> !x.body.OraclePrice?
    decreases |s|
  {
    if s != [] {
      var w, x := s[..|s| - 1], s[|s| - 1];
      assert forall y :: y in s <==> y in w || y == x;
      if x.body.OraclePrice? {
        assert Latest(s, x);
      } else {
        LastPriceIsLatest(w);
        if LastPrice(w).Some? {
          var e :| Latest(w, e) && LastPrice(w) == Some(e.body.price);
          assert Latest(s, e);
        }
      }
    }
  }

  /** The replayed price is that of a latest price event of the input, if there is one. */
  lemma ReplayPriceIsLatest(events: seq<Event>)
    ensures Replay(events).oraclePrice.Some? ==>
      exists e :: Latest(events, e) && Replay(events).oraclePrice == Some(e.body.price)
    ensures Replay(events).oraclePrice.None? ==> forall x :: x in events ==> !x.body.OraclePrice?
  {
    var s := Sort(events);
    SortOrdered(events);
    SortPermutes(events);
    FoldPrice(EMPTY, s);
    LastPriceIsLatest(s);
    assert forall x :: x in s <==> x in multiset(s);
    assert forall x :: x in events <==> x in multiset(events);
    if LastPrice(s).Some? {
      var e :| Latest(s, e) && LastPrice(s) == Some(e.body.price);
      assert Latest(events, e);
    }
  }

  /** The sort puts lower ledgers first and, within a ledger, lower ids; it neither loses nor adds events. */
  lemma SortedByLedgerAndId(events: seq<Event>)
    ensures var s := Sort(events);
            && multiset(s) == multiset(events)
            && forall i, j :: 0 <= i < j < |s| ==>
                 s[i].ledger < s[j].ledger || (s[i].ledger == s[j].ledger && s[i].idRank <= s[j].idRank)
  {
    SortPermutes(events);
    SortOrdered(events);
  }

  /** e is a price event of the list, and no other has a higher ledger, or the same ledger and a higher id. */
  ghost predicate LastByLedgerAndId(events: seq<Event>, e: Event) {
    && e in events && e.body.OraclePrice?
    && forall x :: x in events && x.body.OraclePrice? ==>
         x.ledger < e.ledger || (x.ledger == e.ledger && x.idRank <= e.idRank)
  }

  /** The replayed price is that of the price event with the highest ledger and, within it, the highest id. */
  lemma PriceByLedgerAndId(events: seq<Event>)
    ensures Replay(events).oraclePrice.Some? <==> exists x :: x in events && x.body.OraclePrice?
    ensures Replay(events).oraclePrice.Some? ==>
      exists e :: LastByLedgerAndId(events, e) && Replay(events).oraclePrice == Some(e.body.price)
  {
    ReplayPriceIsLatest(events);
    if Replay(events).oraclePrice.Some? {
      var e :| Latest(events, e) && Replay(events).oraclePrice == Some(e.body.price);
      assert LastByLedgerAndId(events, e);
    }
  }

  /** All latest price events report the same price. */
  ghost predicate PriceAgreed(events: seq<Event>) {
    forall x, y :: Latest(events, x) && Latest(events, y) ==> x.body.price == y.body.price
  }

  ghost predicate Permutes(a: seq<Event>, b: seq<Event>) {
    multiset(a) == multiset(b)
  }

  lemma AgreedReplaysEqual(a: seq<Event>, b: seq<Event>)
    requires Permutes(a, b) && PriceAgreed(a)
    ensures Replay(a) == Replay(b)
  {
    ReplayTotals(a);
    ReplayTotals(b);
    TotalOfPermutation(NO_TOTALS, a, b);
    ReplayPriceIsLatest(a);
    ReplayPriceIsLatest(b);
    assert forall x :: x in a <==> x in multiset(a);
    assert forall x :: x in b <==> x in multiset(b);
    if Replay(a).oraclePrice.Some? && Replay(b).oraclePrice.Some? {
      var e :| Latest(a, e) && Replay(a).oraclePrice == Some(e.body.price);
      var f :| Latest(b, f) && Replay(b).oraclePrice == Some(f.body.price);
      assert Latest(a, f);
    }
  }

  lemma {:induction false} InsertedPriceWins(s: seq<Event>, e: Event)
    requires e.body.OraclePrice? && forall x :: x in s && x.body.OraclePrice? ==> KeyAtMost(x, e)
    ensures LastPrice(Insert(s, e)) == Some(e.body.price)
    decreases |s|
  {
    if s == [] || KeyAtMost(s[|s| - 1], e) {
      assert (s + [e])[|s|] == e;
    } else {
      var w, x := s[..|s| - 1], s[|s| - 1];
      assert x in s && forall y :: y in w ==> y in s;
      InsertedPriceWins(w, e);
      var r := Insert(w, e) + [x];
      assert r[..|r| - 1] == Insert(w, e);
    }
  }

  /** Among latest price events the one that arrives last wins. */
  lemma LastArrivalWins(events: seq<Event>, e: Event)
    requires Latest(events + [e], e)
    ensures Replay(events + [e]).oraclePrice == Some(e.body.price)
  {
    var all := events + [e];
    assert all[..|events|] == events;
    SortPermutes(events);
    assert forall x :: x in Sort(events) ==> x in multiset(Sort(events));
    assert forall x :: x in events ==> x in all;
    InsertedPriceWins(Sort(events), e);
    FoldPrice(EMPTY, Sort(all));
  }

  lemma ArrivingLast(events: seq<Event>, e: Event) returns (b: seq<Event>)
    requires Latest(events, e)
    ensures Permutes(events, b) && Replay(b).oraclePrice == Some(e.body.price)
  {
    var i :| 0 <= i < |events| && events[i] == e;
    var rest := events[..i] + events[i + 1..];
    assert events == events[..i] + [e] + events[i + 1..];
    b := rest + [e];
    assert multiset(b) == multiset(events);
    assert forall x :: x in b ==> x in multiset(b);
    assert forall x :: x in multiset(events) ==> x in events;
    assert b[|rest|] == e;
    LastArrivalWins(rest, e);
  }

  /**
   Exactly when replay is independent of the arrival order: if and only if the latest price
   events agree.  Distinct (ledger, id) keys are one way to guarantee that.
   */
  lemma OrderIndependentIff(events: seq<Event>)
    ensures (forall b :: Permutes(events, b) ==> Replay(b) == Replay(events)) <==> PriceAgreed(events)
  {
    if PriceAgreed(events) {
      forall b | Permutes(events, b) ensures Replay(b) == Replay(events) {
        AgreedReplaysEqual(events, b);
      }
    } else {
      var x, y :| Latest(events, x) && Latest(events, y) && x.body.price != y.body.price;
      var b := ArrivingLast(events, x);
      var c := ArrivingLast(events, y);
      assert Replay(b) != Replay(c);
    }
  }

  /** Two oracle prices under one ledger and id: the one that arrives last wins. */
  lemma SharedKeyCounterexample()
    ensures var x, y := Event(1, 0, OraclePrice(10)), Event(1, 0, OraclePrice(20));
            && Permutes([x, y], [y, x])
            && Replay([x, y]).oraclePrice == Some(20) && Replay([y, x]).oraclePrice == Some(10)
  {
    var x, y := Event(1, 0, OraclePrice(10)), Event(1, 0, OraclePrice(20));
    assert [x] + [y] == [x, y] && [y] + [x] == [y, x];
    LastArrivalWins([x], y);
    LastArrivalWins([y], x);
  }

  ghost predicate DistinctKeys(events: seq<Event>) {
    forall i, j :: 0 <= i < j < |events| ==> events[i].ledger != events[j].ledger || events[i].idRank != events[j].idRank
  }

  /** With distinct keys any permutation of the events replays to the same snapshot. */
  lemma OrderIndependent(a: seq<Event>, b: seq<Event>)
    requires DistinctKeys(a) && Permutes(a, b)
    ensures Replay(a) == Replay(b)
  {
    forall x, y | Latest(a, x) && Latest(a, y) ensures x.body.price == y.body.price {
      var i :| 0 <= i < |a| && a[i] == x;
      var j :| 0 <= j < |a| && a[j] == y;
      assert KeyAtMost(x, y) && KeyAtMost(y, x);
    }
    AgreedReplaysEqual(a, b);
  }

  // ---------- Splitting at a ledger boundary ----------

  lemma {:induction false} InsertBehind(u: seq<Event>, v: seq<Event>, e: Event)
    requires forall i :: 0 <= i < |u| ==> KeyAtMost(u[i], e)
    ensures Insert(u + v, e) == u + Insert(v, e)
    decreases |v|
  {
    if v == [] {
      assert u + v == u;
      assert u != [] ==> KeyAtMost(u[|u| - 1], e);
    } else {
      var w, x := v[..|v| - 1], v[|v| - 1];
      assert (u + v)[..|u + v| - 1] == u + w;
      InsertBehind(u, w, e);
    }
  }

  lemma {:induction false} SortConcat(a: seq<Event>, b: seq<Event>)
    requires forall i, j :: 0 <= i < |a| && 0 <= j < |b| ==> a[i].ledger < b[j].ledger
    ensures Sort(a + b) == Sort(a) + Sort(b)
    decreases |b|
  {
    if b == [] {
      assert a + b == a;
    } else {
      var w, e := b[..|b| - 1], b[|b| - 1];
      assert (a + b)[..|a + b| - 1] == a + w;
      SortConcat(a, w);
      SortPermutes(a);
      forall i | 0 <= i < |Sort(a)| ensures KeyAtMost(Sort(a)[i], e) {
        assert Sort(a)[i] in multiset(Sort(a));
        assert Sort(a)[i] in a;
      }
      InsertBehind(Sort(a), Sort(w), e);
    }
  }

  lemma {:induction false} FoldConcat(s: Snapshot, a: seq<Event>, b: seq<Event>)
    ensures Fold(s, a + b) == Fold(Fold(s, a), b)
    decreases |b|
  {
    if b == [] {
      assert a + b == a;
    } else {
      assert (a + b)[..|a + b| - 1] == a + b[..|b| - 1];
      FoldConcat(s, a, b[..|b| - 1]);
    }
  }

  /** Replaying a list split at a ledger boundary continues the fold from the first part's snapshot. */
  lemma ReplaySplits(a: seq<Event>, b: seq<Event>)
    requires forall i, j :: 0 <= i < |a| && 0 <= j < |b| ==> a[i].ledger < b[j].ledger
    ensures Replay(a + b) == Fold(Replay(a), Sort(b))
  {
    SortConcat(a, b);
    FoldConcat(EMPTY, Sort(a), Sort(b));
  }
}
