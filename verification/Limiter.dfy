/**
 The in-memory sliding windows of the name authority (`allow`, `cooldown_active`, `record_op` in
 src/name_authority/mod.rs). Times are readings of the monotonic clock.
 */
module Limiter {
  import Text

  type Hits = seq<nat>
  type Rate = map<string, Hits>

  /** Above this many keys, a granted call also sweeps the whole map. */
  const MAP_LIMIT := 50_000

  function Key(bucket: string, who: string): string {
    bucket + ":" + who
  }

  /** Buckets have no colon in them, so keys of different buckets never meet. */
  lemma KeyInjective(b: string, w: string, b': string, w': string)
    requires ':' !in b && ':' !in b' && Key(b, w) == Key(b', w')
    ensures b == b' && w == w'
  {
    Text.SplitAtFirst(b, ':', w);
    Text.SplitAtFirst(b', ':', w');
    assert b == Text.Split(Key(b, w), ':')[0] && b' == Text.Split(Key(b', w'), ':')[0];
    assert w == Key(b, w)[|b| + 1..] && w' == Key(b', w')[|b'| + 1..];
  }

  // ---- filtering by age -----------------------------------------------------------------

  /** `duration_since`; zero for a time still to come. */
  function AgeAt(t: nat, now: nat): nat {
    if t <= now then now - t else 0
  }

  predicate Live(t: nat, now: nat, window: nat) {
    AgeAt(t, now) < window
  }

  /** The hits younger than the window. */
  function Recent(hits: Hits, now: nat, window: nat): Hits {
    if hits == [] then []
    else
      var front, last := Recent(hits[..|hits| - 1], now, window), hits[|hits| - 1];
      if Live(last, now, window) then front + [last] else front
  }

  predicate AnyLive(hits: Hits, now: nat, window: nat) {
    exists i :: 0 <= i < |hits| && Live(hits[i], now, window)
  }

  lemma RecentPush(hits: Hits, t: nat, now: nat, window: nat)
    ensures Recent(hits + [t], now, window)
         == if Live(t, now, window) then Recent(hits, now, window) + [t] else Recent(hits, now, window)
  {
  }

  /** Pruning early forgets nothing that pruning later would keep. */
  lemma {:induction false} RecentTwice(hits: Hits, early: nat, now: nat, window: nat)
    requires early <= now
    ensures Recent(Recent(hits, early, window), now, window) == Recent(hits, now, window)
  {
    if hits != [] {
      var front, last := hits[..|hits| - 1], hits[|hits| - 1];
      RecentTwice(front, early, now, window);
      if Live(last, early, window) {
        RecentPush(Recent(front, early, window), last, now, window);
      }
    }
  }

  lemma {:induction false} RecentEmpty(hits: Hits, now: nat, window: nat)
    ensures Recent(hits, now, window) == [] <==> !AnyLive(hits, now, window)
  {
    if hits != [] {
      var front := hits[..|hits| - 1];
      RecentEmpty(front, now, window);
      if i :| 0 <= i < |hits| && Live(hits[i], now, window) {
        if i < |front| { assert front[i] == hits[i]; }
      }
      if i :| 0 <= i < |front| && Live(front[i], now, window) {
        assert hits[i] == front[i];
      }
    }
  }

  // ---- the calls -------------------------------------------------------------------------

  datatype Call =
    | Allow(key: string, max: nat, window: nat, now: nat)
    | Cooldown(key: string, window: nat, now: nat)
    | Record(key: string, now: nat)

  function HitsOf(rate: Rate, key: string): Hits {
    if key in rate then rate[key] else []
  }

  predicate Granted(rate: Rate, c: Call) {
    c.Allow? && |Recent(HitsOf(rate, c.key), c.now, c.window)| < c.max
  }

  predicate CoolingDown(rate: Rate, c: Call) {
    c.Cooldown? && Recent(HitsOf(rate, c.key), c.now, c.window) != []
  }

  /** Entries without a hit inside the calling bucket's window are dropped. */
  function Cleanup(rate: Rate, now: nat, window: nat): Rate {
    if |rate| > MAP_LIMIT then map k | k in rate && AnyLive(rate[k], now, window) :: rate[k] else rate
  }

  function After(rate: Rate, c: Call): Rate {
    match c
    case Allow(key, max, window, now) =>
      var pruned := Recent(HitsOf(rate, key), now, window);
      if Granted(rate, c) then Cleanup(rate[key := pruned + [now]], now, window) else rate[key := pruned]
    case Cooldown(key, window, now) =>
      if key in rate then rate[key := Recent(rate[key], now, window)] else rate
    case Record(key, now) => rate[key := HitsOf(rate, key) + [now]]
  }

  class RateMap {
    var rate: Rate

    constructor ()
      ensures rate == map[]
    {
      rate := map[];
    }

    method Prune(hits: Hits, now: nat, window: nat) returns (kept: Hits)
      ensures kept == Recent(hits, now, window)
    {
      kept := [];
      for i := 0 to |hits|
        invariant kept == Recent(hits[..i], now, window)
      {
        RecentPush(hits[..i], hits[i], now, window);
        assert hits[..i + 1] == hits[..i] + [hits[i]];
        if AgeAt(hits[i], now) < window {
          kept := kept + [hits[i]];
        }
      }
      assert hits[..|hits|] == hits;
    }

    method Allow(key: string, max: nat, window: nat, now: nat) returns (granted: bool)
      modifies this
      ensures granted == Granted(old(rate), Call.Allow(key, max, window, now))
      ensures rate == After(old(rate), Call.Allow(key, max, window, now))
    {
      var hits := if key in rate then rate[key] else [];
      hits := Prune(hits, now, window);
      rate := rate[key := hits];
      if |hits| >= max {
        return false;
      }
      rate := rate[key := hits + [now]];
      assert rate == old(rate)[key := hits + [now]];
      if |rate| > MAP_LIMIT {
        rate := map k | k in rate && AnyLive(rate[k], now, window) :: rate[k];
      }
      return true;
    }

    method CooldownActive(key: string, window: nat, now: nat) returns (active: bool)
      modifies this
      ensures active == CoolingDown(old(rate), Call.Cooldown(key, window, now))
      ensures rate == After(old(rate), Call.Cooldown(key, window, now))
    {
      if key in rate {
        var hits := Prune(rate[key], now, window);
        rate := rate[key := hits];
        return hits != [];
      }
      return false;
    }

    method RecordOp(key: string, now: nat)
      modifies this
      ensures rate == After(old(rate), Call.Record(key, now))
    {
      var hits := if key in rate then rate[key] else [];
      rate := rate[key := hits + [now]];
    }
  }

  // ---- runs --------------------------------------------------------------------------------

  function Run(calls: seq<Call>): Rate {
    if calls == [] then map[] else After(Run(calls[..|calls| - 1]), calls[|calls| - 1])
  }

  predicate Charged(rate: Rate, c: Call, key: string) {
    c.key == key && (c.Record? || Granted(rate, c))
  }

  /** The times at which a key was charged: granted calls and recorded operations. */
  function Charges(calls: seq<Call>, key: string): Hits {
    if calls == [] then []
    else
      var front, c := calls[..|calls| - 1], calls[|calls| - 1];
      if Charged(Run(front), c, key) then Charges(front, key) + [c.now] else Charges(front, key)
  }

  predicate InOrder(calls: seq<Call>) {
    forall i, j :: 0 <= i <= j < |calls| ==> calls[i].now <= calls[j].now
  }

  /** The key is always used with this window, and no call with a shorter one can sweep it away. */
  predicate Protected(calls: seq<Call>, key: string, window: nat) {
    forall i :: 0 <= i < |calls| ==> SafeCall(calls[..i], calls[i], key, window)
  }

  predicate SafeCall(before: seq<Call>, c: Call, key: string, window: nat) {
    (c.key == key && !c.Record? ==> c.window == window)
    && (c.key != key ==> Sweepless(Run(before), c, window))
  }

  /** A granted call with a shorter window leaves a map that is small enough. */
  predicate Sweepless(rate: Rate, c: Call, window: nat) {
    Granted(rate, c) && c.window < window ==> |rate.Keys + {c.key}| <= MAP_LIMIT
  }

  lemma PruneRemembers(hits: Hits, charges: Hits, window: nat, at: nat, now: nat)
    requires at <= now && Recent(hits, now, window) == Recent(charges, now, window)
    ensures Recent(Recent(hits, at, window), now, window) == Recent(charges, now, window)
  {
  }

  /** A sweep with a window at least as long only drops keys that are quiet for good. */
  lemma CleanupRemembers(rate: Rate, key: string, at: nat, sweep: nat, window: nat, now: nat)
    requires window <= sweep && at <= now
    ensures Recent(HitsOf(Cleanup(rate, at, sweep), key), now, window) == Recent(HitsOf(rate, key), now, window)
  {
    var kept := Cleanup(rate, at, sweep);
    if key in rate && key !in kept {
      RecentEmpty(rate[key], now, window);
      assert !AnyLive(rate[key], at, sweep);
    }
  }

  lemma SmallMapIsKept(rate: Rate, key: string, hits: Hits, now: nat, window: nat)
    requires |rate.Keys + {key}| <= MAP_LIMIT
    ensures Cleanup(rate[key := hits], now, window) == rate[key := hits]
  {
    assert rate[key := hits].Keys == rate.Keys + {key};
  }

  /** The map remembers every charge that is still inside the window. */
  lemma {:induction false} RunRemembers(calls: seq<Call>, key: string, window: nat, now: nat)
    requires InOrder(calls) && Protected(calls, key, window)
    requires forall i :: 0 <= i < |calls| ==> calls[i].now <= now
    ensures Recent(HitsOf(Run(calls), key), now, window) == Recent(Charges(calls, key), now, window)
  {
    if calls != [] {
      var n := |calls| - 1;
      var front, c := calls[..n], calls[n];
      var rate := Run(front);
      ProtectedFront(calls, key, window);
      RunRemembers(front, key, window, now);
      assert SafeCall(front, c, key, window);
      StepRemembers(rate, c, key, window, now, Charges(front, key));
    }
  }

  lemma ProtectedFront(calls: seq<Call>, key: string, window: nat)
    requires calls != [] && InOrder(calls) && Protected(calls, key, window)
    ensures InOrder(calls[..|calls| - 1]) && Protected(calls[..|calls| - 1], key, window)
  {
    var front := calls[..|calls| - 1];
    forall i | 0 <= i < |front| ensures SafeCall(front[..i], front[i], key, window) {
      assert front[..i] == calls[..i] && front[i] == calls[i];
    }
  }

  lemma StepRemembers(rate: Rate, c: Call, key: string, window: nat, now: nat, charges: Hits)
    requires c.now <= now && Recent(HitsOf(rate, key), now, window) == Recent(charges, now, window)
    requires c.key == key && !c.Record? ==> c.window == window
    requires c.key != key ==> Sweepless(rate, c, window)
    ensures Recent(HitsOf(After(rate, c), key), now, window)
         == Recent(if Charged(rate, c, key) then charges + [c.now] else charges, now, window)
  {
    var hits := HitsOf(rate, key);
    PruneRemembers(hits, charges, window, c.now, now);
    RecentPush(charges, c.now, now, window);
    match c
    case Record(k, t) =>
      RecentPush(hits, t, now, window);
    case Cooldown(k, w, t) =>
    case Allow(k, max, w, t) =>
      if Granted(rate, c) {
        var pruned := Recent(HitsOf(rate, k), t, w);
        var before := rate[k := pruned + [t]];
        if k == key {
          RecentPush(pruned, t, now, window);
          CleanupRemembers(before, key, t, w, window, now);
        } else if w >= window {
          CleanupRemembers(before, key, t, w, window, now);
        } else {
          SmallMapIsKept(rate, k, pruned + [t], t, w);
        }
      }
  }

  // ---- the guarantee --------------------------------------------------------------------------

  /** The charges inside the half-open interval of one window's length. */
  function Inside(charges: Hits, from: nat, window: nat): Hits {
    if charges == [] then []
    else
      var front, last := Inside(charges[..|charges| - 1], from, window), charges[|charges| - 1];
      if from <= last < from + window then front + [last] else front
  }

  /** Whatever lies in an interval that ends at `now` or later is still live at `now`. */
  lemma {:induction false} InsideIsRecent(charges: Hits, from: nat, now: nat, window: nat)
    requires from <= now < from + window
    ensures |Inside(charges, from, window)| <= |Recent(charges, now, window)|
  {
    if charges != [] {
      InsideIsRecent(charges[..|charges| - 1], from, now, window);
    }
  }

  /** Every call on the key is an `allow` with this limit. */
  predicate LimitedTo(calls: seq<Call>, key: string, max: nat) {
    forall i :: 0 <= i < |calls| && calls[i].key == key && !calls[i].Cooldown? ==>
      calls[i].Allow? && calls[i].max == max
  }

  /**
   Sliding window: in every run, clean-ups included, any interval of the window's length holds
   at most `max` granted calls.
   */
  lemma {:induction false} SlidingWindow(calls: seq<Call>, key: string, max: nat, window: nat, from: nat)
    requires InOrder(calls) && Protected(calls, key, window) && LimitedTo(calls, key, max)
    ensures |Inside(Charges(calls, key), from, window)| <= max
  {
    if calls != [] {
      var n := |calls| - 1;
      var front, c := calls[..n], calls[n];
      ProtectedFront(calls, key, window);
      LimitedFront(calls, key, max);
      SlidingWindow(front, key, max, window, from);
      assert SafeCall(calls[..n], calls[n], key, window);
      if Charged(Run(front), c, key) {
        assert c.Allow? && c.max == max;
        RunRemembers(front, key, window, c.now);
        OneMoreInside(Charges(front, key), c.now, from, window, max);
      }
    }
  }

  lemma LimitedFront(calls: seq<Call>, key: string, max: nat)
    requires calls != [] && LimitedTo(calls, key, max)
    ensures LimitedTo(calls[..|calls| - 1], key, max)
  {
    var front := calls[..|calls| - 1];
    forall i | 0 <= i < |front| && front[i].key == key && !front[i].Cooldown?
      ensures front[i].Allow? && front[i].max == max
    {
      assert front[i] == calls[i];
    }
  }

  lemma OneMoreInside(charges: Hits, now: nat, from: nat, window: nat, max: nat)
    requires |Inside(charges, from, window)| <= max && |Recent(charges, now, window)| < max
    ensures |Inside(charges + [now], from, window)| <= max
  {
    assert (charges + [now])[..|charges|] == charges;
    if from <= now < from + window {
      InsideIsRecent(charges, from, now, window);
    }
  }

  lemma {:induction false} ChargesHold(calls: seq<Call>, key: string, i: nat)
    requires i < |calls| && calls[i] == Record(key, calls[i].now)
    ensures calls[i].now in Charges(calls, key)
  {
    var n := |calls| - 1;
    if i < n {
      assert calls[..n][i] == calls[i];
      ChargesHold(calls[..n], key, i);
    }
  }

  lemma {:induction false} LiveIsRecent(charges: Hits, t: nat, now: nat, window: nat)
    requires t in charges && Live(t, now, window)
    ensures Recent(charges, now, window) != []
  {
    var i :| 0 <= i < |charges| && charges[i] == t;
    RecentEmpty(charges, now, window);
  }

  /** How many of the times are less than a window ago. */
  function Younger(charges: Hits, now: nat, window: nat): nat {
    if charges == [] then 0
    else
      var front, last := Younger(charges[..|charges| - 1], now, window), charges[|charges| - 1];
      if now - last < window then front + 1 else front
  }

  lemma {:induction false} RecentIsYounger(charges: Hits, now: nat, window: nat)
    requires forall i :: 0 <= i < |charges| ==> charges[i] <= now
    ensures |Recent(charges, now, window)| == Younger(charges, now, window)
  {
    if charges != [] {
      RecentIsYounger(charges[..|charges| - 1], now, window);
    }
  }

  lemma {:induction false} ChargesArePast(calls: seq<Call>, key: string, now: nat)
    requires forall i :: 0 <= i < |calls| ==> calls[i].now <= now
    ensures forall i :: 0 <= i < |Charges(calls, key)| ==> Charges(calls, key)[i] <= now
  {
    if calls != [] {
      ChargesArePast(calls[..|calls| - 1], key, now);
    }
  }

  /** A call is granted exactly when the key was charged fewer than `max` times within the window before it. */
  lemma GrantedExactly(calls: seq<Call>, key: string, max: nat, window: nat, now: nat)
    requires InOrder(calls) && Protected(calls, key, window)
    requires forall i :: 0 <= i < |calls| ==> calls[i].now <= now
    ensures Granted(Run(calls), Call.Allow(key, max, window, now)) <==> Younger(Charges(calls, key), now, window) < max
  {
    RunRemembers(calls, key, window, now);
    ChargesArePast(calls, key, now);
    RecentIsYounger(Charges(calls, key), now, window);
  }

  /** A recorded release keeps the cooldown active for the whole window. */
  lemma ReleaseBlocks(calls: seq<Call>, key: string, window: nat, i: nat, now: nat)
    requires InOrder(calls) && Protected(calls, key, window)
    requires i < |calls| && calls[i] == Record(key, calls[i].now)
    requires forall j :: 0 <= j < |calls| ==> calls[j].now <= now
    requires now - calls[i].now < window
    ensures CoolingDown(Run(calls), Cooldown(key, window, now))
  {
    RunRemembers(calls, key, window, now);
    ChargesHold(calls, key, i);
    LiveIsRecent(Charges(calls, key), calls[i].now, now, window);
  }

  /** Conversely, with nothing charged inside the window the cooldown is over. */
  lemma QuietIsFree(calls: seq<Call>, key: string, window: nat, now: nat)
    requires InOrder(calls) && Protected(calls, key, window)
    requires forall j :: 0 <= j < |calls| ==> calls[j].now <= now
    requires forall t :: t in Charges(calls, key) ==> now - t >= window
    ensures !CoolingDown(Run(calls), Cooldown(key, window, now))
  {
    RunRemembers(calls, key, window, now);
    RecentEmpty(Charges(calls, key), now, window);
    ChargesArePast(calls, key, now);
    NoneLive(Charges(calls, key), now, window);
  }

  lemma NoneLive(charges: Hits, now: nat, window: nat)
    requires forall i :: 0 <= i < |charges| ==> charges[i] <= now
    requires forall t :: t in charges ==> now - t >= window
    ensures !AnyLive(charges, now, window)
  {
    forall i | 0 <= i < |charges| ensures !Live(charges[i], now, window) {
      assert charges[i] in charges;
    }
  }

  // ---- what the proviso is for -----------------------------------------------------------------

  /**
   A granted call of another key leaves a running cooldown running exactly when the map is small
   enough or some recorded operation is younger than the caller's own window.
   */
  lemma CleanupForgets(rate: Rate, c: Call, key: string, window: nat)
    requires c.Allow? && Granted(rate, c) && c.key != key && key in rate
    requires CoolingDown(rate, Cooldown(key, window, c.now))
    ensures CoolingDown(After(rate, c), Cooldown(key, window, c.now)) <==>
      |rate.Keys + {c.key}| <= 50_000 || AnyLive(rate[key], c.now, c.window)
  {
    var pruned := Recent(HitsOf(rate, c.key), c.now, c.window);
    var before := rate[c.key := pruned + [c.now]];
    assert before.Keys == rate.Keys + {c.key};
  }

  // ---- a run in which a cooldown is lost ---------------------------------------------------------

  function Filler(i: nat): (k: string)
    ensures |k| == i && forall j :: 0 <= j < i ==> k[j] == 'f'
  {
    seq(i, _ => 'f')
  }

  /** Operations of `n` different keys, all at time 0. */
  function Crowd(n: nat): seq<Call> {
    if n == 0 then [] else Crowd(n - 1) + [Record(Filler(n - 1), 0)]
  }

  /** `n` keys of fillers, with the first one charged at time 0. */
  predicate Crowded(rate: Rate, n: nat) {
    |rate| == n && (n > 0 ==> HitsOf(rate, "") == [0])
    && forall k :: k in rate ==> |k| < n && forall j :: 0 <= j < |k| ==> k[j] == 'f'
  }

  lemma CrowdGrows(rate: Rate, n: nat)
    requires Crowded(rate, n)
    ensures Crowded(After(rate, Record(Filler(n), 0)), n + 1)
  {
    assert Filler(n) !in rate && [] + [0] == [0];
    assert After(rate, Record(Filler(n), 0)) == rate[Filler(n) := [0]];
  }

  lemma {:induction false} CrowdIsKept(n: nat)
    ensures |Crowd(n)| == n && forall i :: 0 <= i < n ==> Crowd(n)[i].now == 0
    ensures Crowded(Run(Crowd(n)), n)
  {
    if n > 0 {
      CrowdIsKept(n - 1);
      CrowdGrows(Run(Crowd(n - 1)), n - 1);
      assert Crowd(n)[..n - 1] == Crowd(n - 1);
    }
  }

  lemma CrowdLoses(n: nat, c: Call)
    requires n == MAP_LIMIT && c == Allow("g", 1, 1, 5)
    ensures CoolingDown(Run(Crowd(n)), Cooldown("", 10, 5))
    ensures !CoolingDown(After(Run(Crowd(n)), c), Cooldown("", 10, 5))
  {
    CrowdIsKept(n);
    var rate := Run(Crowd(n));
    assert "g"[0] != 'f';
    assert "" in rate && c.key !in rate;
    RecentEmpty(rate[""], 5, 10);
    assert Live(rate[""][0], 5, 10);
    assert |rate.Keys + {c.key}| == n + 1;
    assert !AnyLive(rate[""], 5, 1);
    assert Granted(rate, c);
    CleanupForgets(rate, c, "", 10);
  }

  /** In this run a cooldown of ten units is gone after five, swept away by a call with a window of one. */
  lemma CooldownIsLost(n: nat, c: Call)
    requires n == 50_000 && c == Allow("g", 1, 1, 5)
    ensures InOrder(Crowd(n) + [c])
    ensures CoolingDown(Run(Crowd(n)), Cooldown("", 10, 5)) && !CoolingDown(Run(Crowd(n) + [c]), Cooldown("", 10, 5))
  {
    CrowdIsKept(n);
    LaterInOrder(Crowd(n), c);
    RunPush(Crowd(n), c);
    CrowdLoses(n, c);
  }

  lemma RunPush(calls: seq<Call>, c: Call)
    ensures Run(calls + [c]) == After(Run(calls), c)
  {
    assert (calls + [c])[..|calls|] == calls;
  }

  lemma LaterInOrder(calls: seq<Call>, c: Call)
    requires forall i :: 0 <= i < |calls| ==> calls[i].now == 0
    ensures InOrder(calls + [c])
  {
  }
}
