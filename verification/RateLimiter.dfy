/**
 The sliding-window limiter on outgoing connections. Times are nanoseconds; the
 clock readings of each call are parameters.
 */
module RateLimiter {
  import opened Prelude

  const SECOND := 1_000_000_000
  const MAX_PEERS_PER_TORRENT := 200
  const MAX_HALF_OPEN := 200
  const MAX_GLOBAL_CONNECTIONS := 500

  /**
   `attempts` is the limiter's queue. The rest is bookkeeping for the proof: every
   attempt ever recorded, what the last answer still allows, and the clock.
   */
  datatype Limiter = Limiter(attempts: seq<int>, history: seq<int>, granted: nat, asked: int, clock: int)

  datatype Event = Slots(now: int) | Record(now: int, count: nat)

  function NewLimiter(now: int): Limiter {
    Limiter([], [], 0, now, now)
  }

  /** Drops attempts from the front while they are more than a second old. */
  function DropOld(attempts: seq<int>, now: int): seq<int> {
    if attempts != [] && attempts[0] < now - SECOND then DropOld(attempts[1..], now) else attempts
  }

  function Available(attempts: seq<int>, max: nat): nat {
    if max < |attempts| then 0 else max - |attempts|
  }

  function Repeat(now: int, count: nat): (r: seq<int>)
    ensures |r| == count && forall i :: 0 <= i < count ==> r[i] == now
  {
    seq(count, i => now)
  }

  function Step(l: Limiter, max: nat, e: Event): Limiter {
    match e
    case Slots(now) =>
      var kept := DropOld(l.attempts, now);
      l.(attempts := kept, granted := Available(kept, max), asked := now, clock := now)
    case Record(now, count) =>
      l.(attempts := l.attempts + Repeat(now, count), history := l.history + Repeat(now, count),
         granted := if count <= l.granted then l.granted - count else 0, clock := now)
  }

  /** Time does not go back, and no more attempts are recorded than were last granted. */
  predicate Allowed(l: Limiter, e: Event) {
    l.clock <= e.now && (e.Record? ==> e.count <= l.granted)
  }

  ghost predicate Possible(l: Limiter, max: nat, events: seq<Event>)
    decreases events
  {
    events == [] || (Allowed(l, events[0]) && Possible(Step(l, max, events[0]), max, events[1..]))
  }

  function Run(l: Limiter, max: nat, events: seq<Event>): Limiter
    decreases events
  {
    if events == [] then l else Run(Step(l, max, events[0]), max, events[1..])
  }

  // ------------------------------------------------------------- the window bound

  /** The number of attempts of `h` in the closed second that starts at `t`. */
  ghost function InWindow(h: seq<int>, t: int): nat {
    if h == [] then 0
    else InWindow(h[..|h| - 1], t) + if t <= h[|h| - 1] <= t + SECOND then 1 else 0
  }


  /** The count, attempt by attempt, over a window of a billion nanoseconds. */
  lemma {:induction false} InWindowCounts(h: seq<int>, t: int)
    ensures InWindow(h, t) == |set i | 0 <= i < |h| && t <= h[i] <= t + 1_000_000_000|
  {
    if h != [] {
      var init, last := h[..|h| - 1], |h| - 1;
      InWindowCounts(init, t);
      var before := set i | 0 <= i < |init| && t <= init[i] <= t + 1_000_000_000;
      var all := set i | 0 <= i < |h| && t <= h[i] <= t + 1_000_000_000;
      assert all == before + if t <= h[last] <= t + 1_000_000_000 then {last} else {};
    }
  }

  lemma {:induction false} InWindowAppend(a: seq<int>, b: seq<int>, t: int)
    ensures InWindow(a + b, t) == InWindow(a, t) + InWindow(b, t)
  {
    if b == [] {
      assert a + b == a;
    } else {
      assert (a + b)[..|a + b| - 1] == a + b[..|b| - 1];
      InWindowAppend(a, b[..|b| - 1], t);
    }
  }

  lemma {:induction false} InWindowBounds(h: seq<int>, t: int)
    ensures InWindow(h, t) <= |h|
    ensures (forall x :: x in h ==> t <= x <= t + SECOND) ==> InWindow(h, t) == |h|
    ensures (forall x :: x in h ==> x < t || x > t + SECOND) ==> InWindow(h, t) == 0
  {
    if h != [] {
      var init, last := h[..|h| - 1], h[|h| - 1];
      assert last in h && forall x :: x in init ==> x in h;
      InWindowBounds(init, t);
    }
  }

  /** Everything the limiter has forgotten was too old when it last answered. */
  ghost predicate Forgotten(l: Limiter, gone: seq<int>) {
    l.history == gone + l.attempts && forall x :: x in gone ==> x < l.asked - SECOND
  }

  ghost predicate Nondecreasing(h: seq<int>) {
    forall i, j :: 0 <= i < j < |h| ==> h[i] <= h[j]
  }

  ghost predicate LimiterInv(l: Limiter, max: nat) {
    && |l.attempts| + l.granted <= max
    && l.asked <= l.clock && (forall x :: x in l.history ==> x <= l.clock) && Nondecreasing(l.history)
    && (exists gone :: Forgotten(l, gone))
    && forall t :: InWindow(l.history, t) <= max
  }

  lemma {:induction false} DropOldSplits(attempts: seq<int>, now: int) returns (before: seq<int>)
    ensures attempts == before + DropOld(attempts, now) && forall x :: x in before ==> x < now - SECOND
    ensures DropOld(attempts, now) != [] ==> DropOld(attempts, now)[0] >= now - SECOND
  {
    before := [];
    if attempts != [] && attempts[0] < now - SECOND {
      var rest := DropOldSplits(attempts[1..], now);
      before := [attempts[0]] + rest;
    }
  }

  lemma SlotsKeeps(l: Limiter, max: nat, now: int)
    requires LimiterInv(l, max) && Allowed(l, Slots(now))
    ensures LimiterInv(Step(l, max, Slots(now)), max)
  {
    var l' := Step(l, max, Slots(now));
    var gone :| Forgotten(l, gone);
    var dropped := DropOldSplits(l.attempts, now);
    assert gone + dropped + l'.attempts == gone + l.attempts;
    assert Forgotten(l', gone + dropped);
  }

  /** A new batch shares a window only with attempts the limiter still remembers. */
  lemma RecordKeeps(l: Limiter, max: nat, now: int, count: nat)
    requires LimiterInv(l, max) && Allowed(l, Record(now, count))
    ensures LimiterInv(Step(l, max, Record(now, count)), max)
  {
    hide InWindow;
    var l', batch := Step(l, max, Record(now, count)), Repeat(now, count);
    var gone :| Forgotten(l, gone);
    assert gone + (l.attempts + batch) == l.history + batch;
    assert Forgotten(l', gone);
    forall i, j | 0 <= i < j < |l'.history| ensures l'.history[i] <= l'.history[j] {
      if i < |l.history| { assert l.history[i] in l.history; }
    }
    forall t ensures InWindow(l'.history, t) <= max {
      InWindowAppend(l.history, batch, t);
      InWindowBounds(batch, t);
      if t <= now <= t + SECOND {
        InWindowAppend(gone, l.attempts + batch, t);
        InWindowBounds(gone, t);
        InWindowBounds(l.attempts + batch, t);
      }
    }
  }

  lemma {:induction false} RunKeepsInv(l: Limiter, max: nat, events: seq<Event>)
    requires LimiterInv(l, max) && Possible(l, max, events)
    ensures LimiterInv(Run(l, max, events), max)
    decreases events
  {
    hide LimiterInv, Step;
    if events != [] {
      match events[0] {
        case Slots(now) => SlotsKeeps(l, max, now);
        case Record(now, count) => RecordKeeps(l, max, now, count);
      }
      RunKeepsInv(Step(l, max, events[0]), max, events[1..]);
    }
  }

  /**
   In every run in which the recorded attempts keep to the slots last granted, no
   closed one-second window of the whole history holds more than `max` attempts.
   */
  lemma WindowBound(max: nat, start: int, events: seq<Event>, t: int)
    requires Possible(NewLimiter(start), max, events)
    ensures InWindow(Run(NewLimiter(start), max, events).history, t) <= max
  {
    assert Forgotten(NewLimiter(start), []);
    RunKeepsInv(NewLimiter(start), max, events);
  }

  lemma KeptAreRecent(gone: seq<int>, kept: seq<int>, from: int)
    requires Nondecreasing(gone + kept) && (kept != [] ==> kept[0] >= from)
    ensures forall x :: x in kept ==> x >= from
  {
    var all := gone + kept;
    forall i | 0 <= i < |kept| ensures kept[i] >= from {
      assert all[|gone|] == kept[0] && all[|gone| + i] == kept[i];
    }
  }

  /** What remains of the history when old attempts are dropped: those of the last second. */
  lemma KeptIsLastSecond(l: Limiter, max: nat, now: int) returns (gone: seq<int>)
    requires LimiterInv(l, max) && Allowed(l, Slots(now))
    ensures var kept := DropOld(l.attempts, now);
      && l.history == gone + kept && |kept| <= max
      && (forall x :: x in gone ==> x < now - SECOND) && (forall x :: x in kept ==> now - SECOND <= x <= now)
  {
    hide InWindow, DropOld, Nondecreasing;
    var kept := DropOld(l.attempts, now);
    var forgotten :| Forgotten(l, forgotten);
    var dropped := DropOldSplits(l.attempts, now);
    gone := forgotten + dropped;
    assert l.history == gone + kept;
    KeptAreRecent(gone, kept, now - SECOND);
    assert forall x :: x in kept ==> x in l.history;
  }

  /** The answer wastes nothing: it is `max` less the attempts of the last second. */
  lemma SlotsAreExact(l: Limiter, max: nat, now: int)
    requires LimiterInv(l, max) && Allowed(l, Slots(now))
    ensures Step(l, max, Slots(now)).granted == max - InWindow(l.history, now - SECOND)
  {
    hide InWindow, DropOld, LimiterInv;
    var gone := KeptIsLastSecond(l, max, now);
    var kept := DropOld(l.attempts, now);
    InWindowAppend(gone, kept, now - SECOND);
    InWindowBounds(gone, now - SECOND);
    InWindowBounds(kept, now - SECOND);
  }

  // ---------------------------------------------------------------- the limiter

  class ConnectionRateLimiter {
    var attempts: seq<int>
    const maxPerSecond: nat
    ghost var state: Limiter

    ghost predicate Valid()
      reads this
    {
      state.attempts == attempts
    }

    /** The runs that led here kept to the slots granted. */
    ghost predicate Kept()
      reads this
    {
      LimiterInv(state, maxPerSecond)
    }

    constructor (maxPerSecond: nat, ghost now: int)
      ensures Valid() && Kept() && state == NewLimiter(now) && this.maxPerSecond == maxPerSecond
    {
      attempts, state := [], NewLimiter(now);
      this.maxPerSecond := maxPerSecond;
      new;
      assert Forgotten(state, []);
    }

    method AvailableSlots(now: int) returns (slots: nat)
      requires Valid()
      modifies this
      ensures Valid() && state == Step(old(state), maxPerSecond, Slots(now)) && slots == state.granted
      ensures old(Kept() && Allowed(state, Slots(now))) ==> Kept()
    {
      if LimiterInv(state, maxPerSecond) && Allowed(state, Slots(now)) {
        SlotsKeeps(state, maxPerSecond, now);
      }
      hide LimiterInv;
      var oneSecondAgo := now - SECOND;
      while attempts != [] && attempts[0] < oneSecondAgo
        invariant DropOld(attempts, now) == DropOld(old(attempts), now)
        invariant state == old(state)
        decreases |attempts|
      {
        attempts := attempts[1..];
      }
      slots := Available(attempts, maxPerSecond);
      state := Step(state, maxPerSecond, Slots(now));
    }

    /** Records any number of attempts; the window bound needs them to keep to the slots granted. */
    method RecordAttempts(now: int, count: nat)
      requires Valid()
      modifies this
      ensures Valid() && state == Step(old(state), maxPerSecond, Record(now, count))
      ensures old(Kept() && Allowed(state, Record(now, count))) ==> Kept()
    {
      if LimiterInv(state, maxPerSecond) && Allowed(state, Record(now, count)) {
        RecordKeeps(state, maxPerSecond, now, count);
      }
      hide LimiterInv;
      for i := 0 to count
        invariant attempts == old(attempts) + Repeat(now, i)
        invariant state == old(state)
      {
        assert Repeat(now, i + 1) == Repeat(now, i) + [now];
        attempts := attempts + [now];
      }
      state := Step(state, maxPerSecond, Record(now, count));
    }
  }

  /**
   The connecting step of a torrent's run loop, with `waiting` peers to try. It asks
   the limiter once, keeps to the answer and to the other limits, and records what it
   starts: as many as are waiting and as all the limits leave room for. The runs it
   makes are those of `WindowBound`.
   */
  method OpenConnections(limiter: ConnectionRateLimiter, asked: int, now: int, globalConnections: nat,
                         connected: nat, connecting: nat, waiting: nat)
    returns (started: nat)
    requires limiter.Valid() && limiter.Kept() && limiter.state.clock <= asked <= now
    modifies limiter
    ensures limiter.Valid() && limiter.Kept()
    ensures limiter.state.history == old(limiter.state.history) + Repeat(now, started)
    ensures var slots := limiter.maxPerSecond - InWindow(old(limiter.state.history), asked - 1_000_000_000);
      started == Max(0, Min(Min(waiting, slots), Min(Min(200 - connected, 200 - connecting), 500 - globalConnections)))
    ensures started <= waiting && started <= limiter.maxPerSecond
    ensures started > 0 ==>
      && connected + started <= MAX_PEERS_PER_TORRENT && connecting + started <= MAX_HALF_OPEN
      && globalConnections + started <= MAX_GLOBAL_CONNECTIONS
    ensures forall t :: InWindow(limiter.state.history, t) <= limiter.maxPerSecond
  {
    SlotsAreExact(limiter.state, limiter.maxPerSecond, asked);
    var globalSlots := Max(0, MAX_GLOBAL_CONNECTIONS - globalConnections);
    var slots := limiter.AvailableSlots(asked);
    var availableSlots := Min(slots, globalSlots);
    started := 0;
    if connected < MAX_PEERS_PER_TORRENT && connecting < MAX_HALF_OPEN && waiting > 0 && availableSlots > 0 {
      var toConnect := Min(Min(MAX_PEERS_PER_TORRENT - connected, MAX_HALF_OPEN - connecting), availableSlots);
      started := Min(waiting, toConnect);
      limiter.RecordAttempts(now, started);
    }
  }
}
