/** The fixed-window rate limiter: a counter per client that expires some time after its
    first hit. */
module RateLimit {
  import opened Wrappers

  /** A client's Redis key: which lifetime it is in, the hits counted in it, when it expires,
      and whether the expiry call of its first hit is still on its way. */
  datatype Counter = Counter(life: nat, count: nat, expiry: Option<int>, pending: bool)

  type Counters = map<string, Counter>

  predicate Live(counters: Counters, client: string, now: int) {
    client in counters && (counters[client].expiry.None? || now < counters[client].expiry.value)
  }

  /** INCR: an expired or missing key starts again at 1. reply tells whether the answer
      reaches the server; only then does a first hit send its expiry call. */
  function Incr(counters: Counters, client: string, now: int, reply: bool): Counter {
    if Live(counters, client, now) then
      var c := counters[client];
      c.(count := c.count + 1)
    else
      Counter(if client in counters then counters[client].life + 1 else 0, 1, None, reply)
  }

  /** PEXPIRE, when it arrives at all. */
  function Expire(counters: Counters, client: string, now: int, window: int): Counters {
    if Live(counters, client, now) && counters[client].pending then
      counters[client := counters[client].(expiry := Some(now + window), pending := false)]
    else counters
  }

  /** The Middleware's decision on the count it got. */
  predicate Admits(max: int, count: nat, reply: bool) {
    reply && count <= max
  }

  /** What can happen, in the order Redis executes it. */
  datatype Event = Hit(client: string, at: int, reply: bool) | Expiry(client: string, at: int)

  /** A request let through, and the counter lifetime it was counted in. */
  datatype Admission = Admission(client: string, at: int, life: nat)

  /** The counters, the requests let through, and when each client's lifetimes began. */
  datatype History = History(counters: Counters, admitted: seq<Admission>, starts: map<string, seq<int>>)

  const NOTHING: History := History(map[], [], map[])

  function Next(max: int, window: int, h: History, e: Event): History {
    match e
    case Hit(client, at, reply) =>
      var c := Incr(h.counters, client, at, reply);
      History(
        h.counters[client := c],
        if Admits(max, c.count, reply) then h.admitted + [Admission(client, at, c.life)] else h.admitted,
        if Live(h.counters, client, at) then h.starts
        else h.starts[client := (if client in h.starts then h.starts[client] else []) + [at]])
    case Expiry(client, at) => h.(counters := Expire(h.counters, client, at, window))
  }

  function Play(max: int, window: int, h: History, events: seq<Event>): History
    decreases |events|
  {
    if events == [] then h else Play(max, window, Next(max, window, h, events[0]), events[1..])
  }

  /** Events happen in time order, none before `from`. */
  ghost predicate Timed(events: seq<Event>, from: int)
    decreases |events|
  {
    events == [] || (from <= events[0].at && Timed(events[1..], events[0].at))
  }

  /** The admissions of a client in one lifetime. */
  function InLife(log: seq<Admission>, client: string, life: nat): nat
    decreases |log|
  {
    if log == [] then 0
    else
      var last := log[|log| - 1];
      InLife(log[..|log| - 1], client, life) + if last.client == client && last.life == life then 1 else 0
  }

  /** The admissions of a client from time a up to, but not including, time b. */
  function Between(log: seq<Admission>, client: string, a: int, b: int): nat
    decreases |log|
  {
    if log == [] then 0
    else
      var last := log[|log| - 1];
      Between(log[..|log| - 1], client, a, b) + if last.client == client && a <= last.at < b then 1 else 0
  }

  // ---------- the invariant ----------

  ghost predicate Spaced(starts: seq<int>, window: int) {
    forall i :: 0 <= i < |starts| - 1 ==> starts[i] + window <= starts[i + 1]
  }

  /** One client's counter against its starts. */
  ghost predicate CounterOk(h: History, client: string, window: int, now: int)
    requires client in h.counters
  {
    var c := h.counters[client];
    && client in h.starts && |h.starts[client]| == c.life + 1 && Spaced(h.starts[client], window)
    && h.starts[client][c.life] <= now
    && (c.expiry.Some? ==> h.starts[client][c.life] + window <= c.expiry.value)
  }

  /** One admission falls within its lifetime. */
  ghost predicate AdmissionOk(h: History, a: Admission) {
    && a.client in h.starts && a.life < |h.starts[a.client]|
    && h.starts[a.client][a.life] <= a.at
    && (a.life + 1 < |h.starts[a.client]| ==> a.at <= h.starts[a.client][a.life + 1])
  }

  ghost predicate Good(max: int, window: int, h: History, now: int) {
    && h.starts.Keys == h.counters.Keys
    && (forall client :: client in h.counters ==> CounterOk(h, client, window, now))
    && (forall i :: 0 <= i < |h.admitted| ==> AdmissionOk(h, h.admitted[i]) && h.admitted[i].at <= now)
    && (forall client, life :: InLife(h.admitted, client, life) <= max)
    && (forall client :: client in h.counters ==>
          InLife(h.admitted, client, h.counters[client].life) <= h.counters[client].count)
    && (forall client, life :: client !in h.counters || h.counters[client].life < life ==>
      InLife(h.admitted, client, life) == 0)
  }

  lemma InLifeSnoc(log: seq<Admission>, a: Admission, client: string, life: nat)
    ensures InLife(log + [a], client, life)
         == InLife(log, client, life) + if a.client == client && a.life == life then 1 else 0
  {
    assert (log + [a])[..|log|] == log;
  }

  /** A new lifetime begins a window or more after the last one began. */
  lemma NewLife(h: History, client: string, window: int, at: int, now: int)
    requires window > 0 && client in h.counters && CounterOk(h, client, window, now) && !Live(h.counters, client, at)
    ensures Spaced(h.starts[client] + [at], window) && h.starts[client][h.counters[client].life] + window <= at
  {
    var starts := h.starts[client];
    assert forall i :: 0 <= i < |starts| ==> (starts + [at])[i] == starts[i];
  }

  lemma HitKeepsCounters(max: int, window: int, h: History, client: string, at: int, reply: bool, now: int)
    requires window > 0 && Good(max, window, h, now) && now <= at
    ensures var r := Next(max, window, h, Hit(client, at, reply));
      r.starts.Keys == r.counters.Keys && forall x :: x in r.counters ==> CounterOk(r, x, window, at)
  {
    hide InLife, AdmissionOk, Spaced;
    var r := Next(max, window, h, Hit(client, at, reply));
    if client in h.counters {
      assert CounterOk(h, client, window, now);
      if !Live(h.counters, client, at) {
        NewLife(h, client, window, at, now);
      }
    } else {
      FirstLife(at, window);
    }
    forall x | x in r.counters ensures CounterOk(r, x, window, at) {
      if x != client {
        assert CounterOk(h, x, window, now);
      }
    }
  }

  lemma FirstLife(at: int, window: int)
    ensures Spaced([] + [at], window)
  {
  }

  lemma HitKeepsAdmissions(max: int, window: int, h: History, client: string, at: int, reply: bool, now: int)
    requires window > 0 && Good(max, window, h, now) && now <= at
    ensures var r := Next(max, window, h, Hit(client, at, reply));
      forall i :: 0 <= i < |r.admitted| ==> AdmissionOk(r, r.admitted[i]) && r.admitted[i].at <= at
  {
    hide InLife, Spaced;
    var r := Next(max, window, h, Hit(client, at, reply));
    if client in h.counters {
      assert CounterOk(h, client, window, now);
    }
    forall i | 0 <= i < |r.admitted| ensures AdmissionOk(r, r.admitted[i]) && r.admitted[i].at <= at {
      if i < |h.admitted| {
        assert r.admitted[i] == h.admitted[i];
        assert AdmissionOk(h, h.admitted[i]);
      }
    }
  }

  lemma HitKeepsCounts(max: int, window: int, h: History, client: string, at: int, reply: bool, now: int)
    requires max >= 0 && Good(max, window, h, now)
    ensures var r := Next(max, window, h, Hit(client, at, reply));
      && (forall x, life :: InLife(r.admitted, x, life) <= max)
      && (forall x :: x in r.counters ==> InLife(r.admitted, x, r.counters[x].life) <= r.counters[x].count)
      && (forall x, life :: x !in r.counters || r.counters[x].life < life ==> InLife(r.admitted, x, life) == 0)
  {
    hide InLife, CounterOk, AdmissionOk;
    var r := Next(max, window, h, Hit(client, at, reply));
    var c := r.counters[client];
    if Admits(max, c.count, reply) {
      forall x, life
        ensures InLife(r.admitted, x, life)
             == InLife(h.admitted, x, life) + if x == client && life == c.life then 1 else 0
      {
        InLifeSnoc(h.admitted, Admission(client, at, c.life), x, life);
      }
    }
  }

  lemma StepGood(max: int, window: int, h: History, e: Event, now: int)
    requires window > 0 && max >= 0 && Good(max, window, h, now) && now <= e.at
    ensures Good(max, window, Next(max, window, h, e), e.at)
  {
    hide InLife, CounterOk, AdmissionOk, Next;
    match e
    case Hit(client, at, reply) =>
      HitKeepsCounters(max, window, h, client, at, reply, now);
      HitKeepsAdmissions(max, window, h, client, at, reply, now);
      HitKeepsCounts(max, window, h, client, at, reply, now);
    case Expiry(client, at) => ExpiryGood(max, window, h, client, at, now);
  }

  lemma ExpiryGood(max: int, window: int, h: History, client: string, at: int, now: int)
    requires window > 0 && Good(max, window, h, now) && now <= at
    ensures Good(max, window, Next(max, window, h, Expiry(client, at)), at)
  {
    hide InLife, Spaced;
    var r := Next(max, window, h, Expiry(client, at));
    forall x | x in r.counters ensures CounterOk(r, x, window, at) {
      assert CounterOk(h, x, window, now);
    }
    forall i | 0 <= i < |r.admitted| ensures AdmissionOk(r, r.admitted[i]) && r.admitted[i].at <= at {
      assert AdmissionOk(h, h.admitted[i]);
    }
  }

  lemma {:induction false} PlayGood(max: int, window: int, h: History, events: seq<Event>, now: int) returns (end: int)
    requires window > 0 && max >= 0 && Good(max, window, h, now) && Timed(events, now)
    ensures Good(max, window, Play(max, window, h, events), end)
    decreases |events|
  {
    hide Good, Next;
    end := now;
    if events != [] {
      StepGood(max, window, h, events[0], now);
      end := PlayGood(max, window, Next(max, window, h, events[0]), events[1..], events[0].at);
    }
  }

  // ---------- the bounds ----------

  /** Spaced starts: two lifetimes on, a window has passed. */
  lemma {:induction false} StartsApart(starts: seq<int>, window: int, i: nat, j: nat)
    requires Spaced(starts, window) && window > 0 && i <= j < |starts|
    ensures starts[i] <= starts[j] && (i < j ==> starts[i] + window <= starts[j])
    decreases j - i
  {
    if i < j {
      StartsApart(starts, window, i, j - 1);
    }
  }

  /** Admissions of one client within one window length belong to two consecutive lifetimes. */
  lemma TwoLives(h: History, max: int, window: int, now: int, client: string, a: int, x: Admission, y: Admission)
    requires window > 0 && Good(max, window, h, now) && x in h.admitted && y in h.admitted
    requires x.client == y.client == client && a <= x.at < a + window && a <= y.at < a + window && x.life <= y.life
    ensures y.life <= x.life + 1
  {
    hide InLife;
    assert AdmissionOk(h, x) && AdmissionOk(h, y);
    assert CounterOk(h, client, window, now);
    if x.life + 1 < y.life {
      StartsApart(h.starts[client], window, x.life + 1, y.life);
    }
  }

  lemma {:induction false} BetweenWithin(log: seq<Admission>, client: string, a: int, b: int, life: nat)
    requires forall x :: x in log && x.client == client && a <= x.at < b ==> x.life == life || x.life == life + 1
    ensures Between(log, client, a, b) <= InLife(log, client, life) + InLife(log, client, life + 1)
    decreases |log|
  {
    if log != [] {
      assert log[|log| - 1] in log;
      BetweenWithin(log[..|log| - 1], client, a, b, life);
    }
  }

  /** The earliest lifetime among the admissions of an interval, if there are any. */
  lemma {:induction false} EarliestLife(log: seq<Admission>, client: string, a: int,
      b: int) returns (first: Option<Admission>)
    ensures first.None? ==> Between(log, client, a, b) == 0
    ensures first.Some? ==> first.value in log && first.value.client == client && a <= first.value.at < b
    ensures first.Some? ==> forall x :: x in log && x.client == client && a <= x.at < b ==> first.value.life <= x.life
    decreases |log|
  {
    first := None;
    if log != [] {
      var last := log[|log| - 1];
      var rest := log[..|log| - 1];
      assert log == rest + [last];
      first := EarliestLife(rest, client, a, b);
      assert forall x :: x in log <==> x in rest || x == last;
      if last.client == client && a <= last.at < b && (first.None? || last.life < first.value.life) {
        assert first.None? ==> forall x :: x in rest && x.client == client && a <= x.at < b ==> false by {
          if first.None? {
            BetweenZero(rest, client, a, b);
          }
        }
        first := Some(last);
      }
    }
  }

  lemma {:induction false} BetweenZero(log: seq<Admission>, client: string, a: int, b: int)
    requires Between(log, client, a, b) == 0
    ensures forall x :: x in log ==> !(x.client == client && a <= x.at < b)
    decreases |log|
  {
    if log != [] {
      BetweenZero(log[..|log| - 1], client, a, b);
      assert log == log[..|log| - 1] + [log[|log| - 1]];
    }
  }

  /** For any timed run of requests from any clients, with expiry calls delayed, reordered or
      lost: each counter lifetime lets at most max requests through, and any interval one
      window long, at most twice max. */
  lemma RateBounds(max: int, window: int, events: seq<Event>, from: int, client: string, life: nat, a: int)
    requires window > 0 && max >= 0 && Timed(events, from)
    ensures var log := Play(max, window, NOTHING, events).admitted;
      InLife(log, client, life) <= max && Between(log, client, a, a + window) <= 2 * max
  {
    hide CounterOk, AdmissionOk, Play;
    assert Good(max, window, NOTHING, from);
    var now := PlayGood(max, window, NOTHING, events, from);
    var h := Play(max, window, NOTHING, events);
    var first := EarliestLife(h.admitted, client, a, a + window);
    if first.Some? {
      forall x | x in h.admitted && x.client == client && a <= x.at < a + window
        ensures x.life == first.value.life || x.life == first.value.life + 1
      {
        TwoLives(h, max, window, now, client, a, first.value, x);
      }
      BetweenWithin(h.admitted, client, a, a + window, first.value.life);
    }
  }

  lemma BetweenSnoc(log: seq<Admission>, x: Admission, client: string, a: int, b: int)
    ensures Between(log + [x], client, a, b)
         == Between(log, client, a, b) + if x.client == client && a <= x.at < b then 1 else 0
  {
    assert (log + [x])[..|log|] == log;
  }

  /** A counter with an expiry set runs its window out, whatever happens meanwhile. */
  lemma {:induction false} RunsOut(max: int, window: int, h: History, client: string, events: seq<Event>, end: int)
    requires client in h.counters && h.counters[client].expiry == Some(end) && !h.counters[client].pending
    requires forall k :: 0 <= k < |events| ==> events[k].at < end
    ensures var r := Play(max, window, h, events);
      && client in r.counters && r.counters[client].life == h.counters[client].life
      && r.counters[client].expiry == Some(end) && !r.counters[client].pending
    decreases |events|
  {
    if events != [] {
      assert events[0].at < end;
      RunsOut(max, window, Next(max, window, h, events[0]), client, events[1..], end);
    }
  }

  /** Once the expiry call of a counter has arrived, the client is let in again as soon as the
      window has passed, however many requests were refused until then. */
  lemma {:induction false} WindowReopens(max: int, window: int, h: History, client: string, t: int,
      events: seq<Event>, at: int)
    requires max >= 1 && Live(h.counters, client, t) && h.counters[client].pending
    requires t + window <= at
    requires forall k :: 0 <= k < |events| ==> events[k].at < t + window
    ensures var r := Play(max, window, Next(max, window, h, Expiry(client, t)), events);
      && client in r.counters && r.counters[client].life == h.counters[client].life
      && Next(max, window, r, Hit(client, at, true)).admitted
         == r.admitted + [Admission(client, at, h.counters[client].life + 1)]
  {
    RunsOut(max, window, Next(max, window, h, Expiry(client, t)), client, events, t + window);
  }

  /** A client whose counter is full and whose expiry call never arrives is never let in again. */
  lemma {:induction false} LockedOut(max: int, window: int, h: History, client: string, events: seq<Event>)
    requires client in h.counters && h.counters[client].expiry == None && h.counters[client].count >= max
    requires forall k :: 0 <= k < |events| && events[k].Expiry? ==> events[k].client != client
    ensures forall a, b ::
      Between(Play(max, window, h, events).admitted, client, a, b) == Between(h.admitted, client, a, b)
    decreases |events|
  {
    hide Between;
    if events != [] {
      var e := events[0];
      var next := Next(max, window, h, e);
      forall a, b ensures Between(next.admitted, client, a, b) == Between(h.admitted, client, a, b) {
        if e.Hit? {
          BetweenSnoc(h.admitted, Admission(e.client, e.at, next.counters[e.client].life), client, a, b);
        }
      }
      LockedOut(max, window, next, client, events[1..]);
    }
  }

  lemma {:induction false} PlaySnoc(max: int, window: int, h: History, events: seq<Event>, e: Event)
    ensures Play(max, window, h, events + [e]) == Next(max, window, Play(max, window, h, events), e)
    decreases |events|
  {
    hide Next;
    if events == [] {
      assert events + [e] == [e];
      assert [e][1..] == [];
    } else {
      assert (events + [e])[1..] == events[1..] + [e];
      PlaySnoc(max, window, Next(max, window, h, events[0]), events[1..], e);
    }
  }

  // ---------- which requests are let through ----------

  /** A hit as Redis counted it: the lifetime of its counter, and whether the server heard of it. */
  datatype Counted = Counted(client: string, at: int, life: nat, reply: bool)

  /** The counters after these events, whatever is let through. */
  function CountersAfter(window: int, events: seq<Event>): Counters
    decreases |events|
  {
    if events == [] then map[]
    else
      Changed(window, CountersAfter(window, events[..|events| - 1]), events[|events| - 1])
  }

  /** What one event does to the counters. */
  function Changed(window: int, counters: Counters, e: Event): Counters {
    match e
    case Hit(client, at, reply) => counters[client := Incr(counters, client, at, reply)]
    case Expiry(client, at) => Expire(counters, client, at, window)
  }

  /** The lifetime a hit is counted in. */
  function LifeOf(window: int, events: seq<Event>, client: string, at: int, reply: bool): nat {
    Incr(CountersAfter(window, events), client, at, reply).life
  }

  /** All hits, in order. */
  function Hits(window: int, events: seq<Event>): seq<Counted>
    decreases |events|
  {
    if events == [] then []
    else
      var rest, last := Hits(window, events[..|events| - 1]), events[|events| - 1];
      if last.Expiry? then rest
      else
        var life := LifeOf(window, events[..|events| - 1], last.client, last.at, last.reply);
        rest + [Counted(last.client, last.at, life, last.reply)]
  }

  /** The hits of a client counted in one lifetime, answered or not. */
  function HitsIn(hits: seq<Counted>, client: string, life: nat): nat
    decreases |hits|
  {
    if hits == [] then 0
    else
      var last := hits[|hits| - 1];
      HitsIn(hits[..|hits| - 1], client, life) + if last.client == client && last.life == life then 1 else 0
  }

  lemma HitsSnoc(window: int, events: seq<Event>, e: Event)
    ensures CountersAfter(window, events + [e]) == Changed(window, CountersAfter(window, events), e)
    ensures e.Expiry? ==> Hits(window, events + [e]) == Hits(window, events)
    ensures e.Hit? ==>
      var hit := Counted(e.client, e.at, LifeOf(window, events, e.client, e.at, e.reply), e.reply);
      Hits(window, events + [e]) == Hits(window, events) + [hit]
  {
    hide Incr, Expire;
    assert (events + [e])[..|events|] == events;
  }

  lemma HitsInSnoc(hits: seq<Counted>, h: Counted, client: string, life: nat)
    ensures HitsIn(hits + [h], client, life)
         == HitsIn(hits, client, life) + if h.client == client && h.life == life then 1 else 0
  {
    assert (hits + [h])[..|hits|] == hits;
  }

  /** A counter is the number of hits in its lifetime, and no hit belongs to a later one. */
  lemma {:induction false} CountsHits(window: int, events: seq<Event>, client: string)
    ensures var counters, hits := CountersAfter(window, events), Hits(window, events);
      && (client in counters ==> counters[client].count == HitsIn(hits, client, counters[client].life))
      && (forall life :: client !in counters || counters[client].life < life ==> HitsIn(hits, client, life) == 0)
    decreases |events|
  {
    hide HitsIn;
    if events == [] {
      NoHits(client);
    } else {
      var rest, last := events[..|events| - 1], events[|events| - 1];
      assert events == rest + [last];
      CountsHits(window, rest, client);
      HitsSnoc(window, rest, last);
      var hits := Hits(window, rest);
      if last.Hit? {
        var life := LifeOf(window, rest, last.client, last.at, last.reply);
        forall l: nat
          ensures HitsIn(Hits(window, events), client, l)
               == HitsIn(hits, client, l) + if last.client == client && life == l then 1 else 0
        {
          HitsInSnoc(hits, Counted(last.client, last.at, life, last.reply), client, l);
        }
      }
    }
  }

  lemma NoHits(client: string)
    ensures forall life :: HitsIn([], client, life) == 0
  {
  }

  /** The counters do not depend on what is let through. */
  lemma {:induction false} PlayCounters(max: int, window: int, events: seq<Event>)
    ensures Play(max, window, NOTHING, events).counters == CountersAfter(window, events)
    decreases |events|
  {
    hide Incr, Expire;
    if events != [] {
      var rest, last := events[..|events| - 1], events[|events| - 1];
      assert events == rest + [last];
      PlayCounters(max, window, rest);
      PlaySnoc(max, window, NOTHING, rest, last);
    }
  }

  /** After any run, a request is let through if and only if its hit is answered and fewer than max
      hits were counted in its lifetime before it. */
  lemma AdmittedIff(max: int, window: int, events: seq<Event>, client: string, at: int, reply: bool)
    ensures var life := LifeOf(window, events, client, at, reply);
      Play(max, window, NOTHING, events + [Hit(client, at, reply)]).admitted
      == Play(max, window, NOTHING, events).admitted
         + if reply && HitsIn(Hits(window, events), client, life) < max then [Admission(client, at, life)] else []
  {
    hide HitsIn;
    PlaySnoc(max, window, NOTHING, events, Hit(client, at, reply));
    PlayCounters(max, window, events);
    CountsHits(window, events, client);
  }

  /** In a lifetime in which every hit is answered, exactly the first max requests are let through. */
  lemma {:induction false} LifeAdmits(max: int, window: int, events: seq<Event>, client: string, life: nat)
    requires max >= 0
    requires forall h :: h in Hits(window, events) && h.client == client && h.life == life ==> h.reply
    ensures var n := HitsIn(Hits(window, events), client, life);
      InLife(Play(max, window, NOTHING, events).admitted, client, life) == if n < max then n else max
    decreases |events|
  {
    hide HitsIn, InLife, Hits, Next;
    if events == [] {
      NoHits(client);
      assert Hits(window, []) == [] by { NothingHit(window); }
      assert InLife([], client, life) == 0 by { NothingLogged(client, life); }
    } else {
      var rest, last := events[..|events| - 1], events[|events| - 1];
      assert events == rest + [last];
      HitsSnoc(window, rest, last);
      forall h | h in Hits(window, rest) && h.client == client && h.life == life ensures h.reply {
        assert h in Hits(window, events);
      }
      LifeAdmits(max, window, rest, client, life);
      PlaySnoc(max, window, NOTHING, rest, last);
      if last.Hit? {
        LifeAdmitsHit(max, window, rest, last, client, life);
      } else {
        ExpiryAdmitsNobody(max, window, Play(max, window, NOTHING, rest), last);
      }
    }
  }

  lemma LifeAdmitsHit(max: int, window: int, rest: seq<Event>, last: Event, client: string, life: nat)
    requires max >= 0 && last.Hit?
    requires forall h :: h in Hits(window, rest + [last]) && h.client == client && h.life == life ==> h.reply
    requires var n := HitsIn(Hits(window, rest), client, life);
      InLife(Play(max, window, NOTHING, rest).admitted, client, life) == if n < max then n else max
    ensures var n := HitsIn(Hits(window, rest + [last]), client, life);
      InLife(Play(max, window, NOTHING, rest + [last]).admitted, client, life) == if n < max then n else max
  {
    hide HitsIn, InLife, Hits, Play, Incr;
    HitsSnoc(window, rest, last);
    AdmittedIff(max, window, rest, last.client, last.at, last.reply);
    var its := LifeOf(window, rest, last.client, last.at, last.reply);
    var hit := Counted(last.client, last.at, its, last.reply);
    assert hit in Hits(window, rest + [last]);
    HitsInSnoc(Hits(window, rest), hit, client, life);
    var log := Play(max, window, NOTHING, rest).admitted;
    InLifeSnoc(log, Admission(last.client, last.at, its), client, life);
    assert log + [] == log;
  }

  lemma NothingHit(window: int)
    ensures Hits(window, []) == []
  {
  }

  lemma NothingLogged(client: string, life: nat)
    ensures InLife([], client, life) == 0
  {
  }

  lemma ExpiryAdmitsNobody(max: int, window: int, h: History, e: Event)
    requires e.Expiry?
    ensures Next(max, window, h, e).admitted == h.admitted
  {
  }

  // ---------- how long a lifetime is ----------

  lemma {:induction false} AfterMore(window: int, events: seq<Event>, more: seq<Event>, e: Event)
    ensures CountersAfter(window, events + (more + [e])) == Changed(window, CountersAfter(window, events + more), e)
  {
    assert events + (more + [e]) == events + more + [e];
    HitsSnoc(window, events + more, e);
  }

  /** A counter without an expiry keeps none unless an expiry call is on its way and arrives. */
  lemma {:induction false} StaysOpen(window: int, events: seq<Event>, more: seq<Event>, client: string)
    requires client in CountersAfter(window, events)
    requires var c := CountersAfter(window, events)[client];
      c.expiry.None? && (c.pending ==> forall e :: e in more && e.Expiry? ==> e.client != client)
    ensures client in CountersAfter(window, events + more)
    ensures var c, d := CountersAfter(window, events)[client], CountersAfter(window, events + more)[client];
      d.life == c.life && d.expiry.None? && d.pending == c.pending
    decreases |more|
  {
    if more == [] {
      assert events + more == events;
    } else {
      var rest, last := more[..|more| - 1], more[|more| - 1];
      assert more == rest + [last];
      StaysOpen(window, events, rest, client);
      AfterMore(window, events, rest, last);
    }
  }

  /** A counter with an expiry keeps it until then. */
  lemma {:induction false} StaysUntil(window: int, events: seq<Event>, more: seq<Event>, client: string, end: int)
    requires client in CountersAfter(window, events)
    requires var c := CountersAfter(window, events)[client]; c.expiry == Some(end) && !c.pending
    requires forall e :: e in more ==> e.at < end
    ensures client in CountersAfter(window, events + more)
    ensures var c, d := CountersAfter(window, events)[client], CountersAfter(window, events + more)[client];
      d.life == c.life && d.expiry == c.expiry && !d.pending
    decreases |more|
  {
    if more == [] {
      assert events + more == events;
    } else {
      var rest, last := more[..|more| - 1], more[|more| - 1];
      assert more == rest + [last];
      StaysUntil(window, events, rest, client, end);
      AfterMore(window, events, rest, last);
    }
  }

  /** How long a lifetime is. A hit on a key that is missing or expired begins one. When it is
      answered, its expiry call is on its way, and the hit at x belongs to the same lifetime as
      long as the call has not arrived, and after it arrived at t, until t + window and no longer,
      whatever other calls arrive meanwhile. */
  lemma LifeLasts(window: int, events: seq<Event>, client: string, at: int, middle: seq<Event>, t: int,
      after: seq<Event>, x: int, reply: bool)
    requires !Live(CountersAfter(window, events), client, at)
    requires forall e :: e in middle && e.Expiry? ==> e.client != client
    requires forall e :: e in after ==> e.at < t + window
    ensures var begun, life := events + [Hit(client, at, true)], LifeOf(window, events, client, at, true);
      && LifeOf(window, begun + middle, client, x, reply) == life
      && LifeOf(window, begun + middle + [Expiry(client, t)] + after, client, x, reply)
         == if x < t + window then life else life + 1
  {
    var begun := events + [Hit(client, at, true)];
    HitsSnoc(window, events, Hit(client, at, true));
    StaysOpen(window, begun, middle, client);
    HitsSnoc(window, begun + middle, Expiry(client, t));
    StaysUntil(window, begun + middle + [Expiry(client, t)], after, client, t + window);
  }

  /** When the first hit of a lifetime is not answered, no expiry call was sent, and the lifetime
      never ends. */
  lemma UnansweredLifeLasts(window: int, events: seq<Event>, client: string, at: int, after: seq<Event>, x: int,
      reply: bool)
    requires !Live(CountersAfter(window, events), client, at)
    ensures LifeOf(window, events + [Hit(client, at, false)] + after, client, x, reply)
         == LifeOf(window, events, client, at, false)
  {
    var begun := events + [Hit(client, at, false)];
    HitsSnoc(window, events, Hit(client, at, false));
    StaysOpen(window, begun, after, client);
  }

  /** The limiter of the server, with the keys Redis holds for it and the events so far. */
  class RateLimiter {
    const max: int
    const window: int
    var counters: Counters
    ghost var events: seq<Event>

    ghost function Log(): History
      reads this
    {
      Play(max, window, NOTHING, events)
    }

    ghost predicate Valid()
      reads this
    {
      counters == Log().counters
    }

    constructor (max: int, window: int)
      ensures this.max == max && this.window == window && events == [] && Valid()
    {
      this.max, this.window, counters, events := max, window, map[], [];
    }

    /** One request: INCR and the decision. expire tells that an expiry call is sent. */
    method Middleware(client: string, at: int, reply: bool) returns (admitted: bool, expire: bool)
      requires Valid()
      modifies this
      ensures Valid() && events == old(events) + [Hit(client, at, reply)]
      ensures Log() == Next(max, window, old(Log()), Hit(client, at, reply))
      ensures Log().admitted
           == old(Log()).admitted + if admitted then [Admission(client, at, counters[client].life)] else []
      ensures var life := LifeOf(window, old(events), client, at, reply);
        && (admitted <==> reply && HitsIn(Hits(window, old(events)), client, life) < max)
        && (expire <==> reply && HitsIn(Hits(window, old(events)), client, life) == 0)
    {
      PlayCounters(max, window, events);
      CountsHits(window, events, client);
      PlaySnoc(max, window, NOTHING, events, Hit(client, at, reply));
      var counter := Incr(counters, client, at, reply);
      counters := counters[client := counter];
      events := events + [Hit(client, at, reply)];
      expire := reply && counter.count == 1;
      admitted := true;
      if !reply || counter.count > max {
        admitted := false;
      }
    }

    /** The expiry call, whenever it arrives. */
    method PExpire(client: string, at: int)
      requires Valid()
      modifies this
      ensures Valid() && events == old(events) + [Expiry(client, at)]
      ensures Log() == Next(max, window, old(Log()), Expiry(client, at)) && Log().admitted == old(Log()).admitted
    {
      PlaySnoc(max, window, NOTHING, events, Expiry(client, at));
      counters := Expire(counters, client, at, window);
      events := events + [Expiry(client, at)];
    }
  }

  /** Whatever calls a limiter has served in time order, it is within the bounds. */
  lemma LimiterBounded(limiter: RateLimiter, from: int, client: string, life: nat, a: int)
    requires limiter.Valid() && limiter.window > 0 && limiter.max >= 0 && Timed(limiter.events, from)
    ensures var log := limiter.Log().admitted;
      InLife(log, client, life) <= limiter.max && Between(log, client, a, a + limiter.window) <= 2 * limiter.max
  {
    RateBounds(limiter.max, limiter.window, limiter.events, from, client, life, a);
  }
}
