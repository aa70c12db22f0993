/**
 The byte semaphore that every flow of a client shares. A release closes the
 current generation and opens a new one, which wakes every sleeper.
 */
module MemoryBudget {

  /** The semaphore. Releasing more than was acquired is a programming error and is refused. */
  class Budget {
    const capacity: nat
    var used: nat
    var peak: nat
    /** Counts the generation channels made so far; the last one is the open one. */
    var generation: nat

    ghost predicate Valid()
      reads this
    {
      used <= capacity && used <= peak <= capacity
    }

    constructor (capacity: nat)
      requires capacity > 0
      ensures Valid() && this.capacity == capacity && used == 0 && peak == 0 && generation == 0
    {
      this.capacity := capacity;
      used, peak, generation := 0, 0, 0;
    }

    /** Reserves n bytes without waiting. */
    method TryAcquire(n: int) returns (ok: bool)
      requires Valid()
      modifies this`used, this`peak
      ensures Valid()
      ensures ok <==> n <= 0 || n <= capacity - old(used)
      ensures used == if ok && n > 0 then old(used) + n else old(used)
      ensures peak == if used > old(peak) then used else old(peak)
    {
      if n <= 0 {
        return true;
      }
      if n > capacity - used {
        return false;
      }
      used := used + n;
      if used > peak {
        peak := used;
      }
      return true;
    }

    /** Returns n bytes; false is the panic on returning more than is held. */
    method Release(n: int) returns (ok: bool)
      requires Valid()
      modifies this`used, this`generation
      ensures Valid()
      ensures ok <==> n <= 0 || n <= old(used)
      ensures used == if ok && n > 0 then old(used) - n else old(used)
      ensures generation == if ok && n > 0 then old(generation) + 1 else old(generation)
    {
      if n <= 0 {
        return true;
      }
      if n > used {
        return false;
      }
      used := used - n;
      generation := generation + 1;
      return true;
    }
  }

  // ---------- blocking acquisition, step by step ----------

  /** A caller of Acquire asleep on a generation channel. */
  datatype Sleeper = Sleeper(request: nat, generation: nat)

  /** The semaphore with its sleepers, each between two of its turns under the lock. */
  datatype Pool = Pool(
    capacity: nat, used: nat, peak: nat, waiters: nat, generation: nat, asleep: map<nat, Sleeper>)

  datatype Event =
    | Arrive(caller: nat, request: int, cancelled: bool)
    | Wake(caller: nat, cancelled: bool)
    | Abandon(caller: nat)
    | Try(request: int)
    | GiveBack(amount: int)

  function Fresh(capacity: nat): Pool {
    Pool(capacity, 0, 0, 0, 0, map[])
  }

  function Take(p: Pool, n: nat): Pool {
    p.(used := p.used + n, peak := if p.used + n > p.peak then p.used + n else p.peak)
  }

  /** One turn of Acquire's loop: cancellation wins, then admission, then sleep on the open generation. */
  function Turn(p: Pool, caller: nat, request: nat, cancelled: bool): Pool {
    if cancelled then p
    else if request <= p.capacity - p.used then Take(p, request)
    else p.(waiters := p.waiters + 1, asleep := p.asleep[caller := Sleeper(request, p.generation)])
  }

  predicate Possible(p: Pool, e: Event) {
    match e
    case Arrive(caller, _, _) => caller !in p.asleep
    // A sleeper resumes only once its generation channel has been closed.
    case Wake(caller, _) => caller in p.asleep && p.asleep[caller].generation < p.generation && p.waiters > 0
    case Abandon(caller) => caller in p.asleep && p.waiters > 0
    case Try(_) => true
    case GiveBack(amount) => amount <= p.used
  }

  function Next(p: Pool, e: Event): Pool
    requires Possible(p, e)
  {
    match e
    case Arrive(caller, request, cancelled) =>
      if request <= 0 || request > p.capacity then p else Turn(p, caller, request, cancelled)
    case Wake(caller, cancelled) =>
      Turn(Woken(p, caller), caller, p.asleep[caller].request, cancelled)
    case Abandon(caller) =>
      Woken(p, caller)
    case Try(request) =>
      if request <= 0 || request > p.capacity - p.used then p else Take(p, request)
    case GiveBack(amount) =>
      if amount <= 0 then p else p.(used := p.used - amount, generation := p.generation + 1)
  }

  /** No sleeper on the open generation could be admitted, and the counters are what they claim. */
  ghost predicate Sound(p: Pool) {
    && p.used <= p.peak <= p.capacity
    && p.waiters == |p.asleep|
    && (forall c :: c in p.asleep ==>
          && 0 < p.asleep[c].request <= p.capacity
          && p.asleep[c].generation <= p.generation
          && (p.asleep[c].generation == p.generation ==> p.asleep[c].request > p.capacity - p.used))
  }

  function Woken(p: Pool, c: nat): Pool
    requires p.waiters > 0
  {
    p.(waiters := p.waiters - 1, asleep := p.asleep - {c})
  }

  lemma WokenSound(p: Pool, c: nat)
    requires Sound(p) && c in p.asleep
    ensures p.waiters > 0 && Sound(Woken(p, c))
  {
    assert (p.asleep - {c}).Keys == p.asleep.Keys - {c};
    assert |p.asleep - {c}| == |p.asleep| - 1;
  }

  lemma TurnSound(p: Pool, caller: nat, request: nat, cancelled: bool)
    requires Sound(p) && caller !in p.asleep && 0 < request <= p.capacity
    ensures Sound(Turn(p, caller, request, cancelled))
  {
    var r := Turn(p, caller, request, cancelled);
    if !cancelled && request > p.capacity - p.used {
      assert r.asleep.Keys == p.asleep.Keys + {caller};
    }
  }

  lemma NextSound(p: Pool, e: Event)
    requires Sound(p) && Possible(p, e)
    ensures Sound(Next(p, e))
  {
    hide Turn;
    match e
    case Arrive(caller, request, cancelled) =>
      if 0 < request <= p.capacity {
        TurnSound(p, caller, request, cancelled);
      }
    case Wake(caller, cancelled) =>
      WokenSound(p, caller);
      TurnSound(Woken(p, caller), caller, p.asleep[caller].request, cancelled);
    case Abandon(caller) =>
      WokenSound(p, caller);
    case Try(request) =>
    case GiveBack(amount) =>
  }

  ghost predicate PossibleRun(p: Pool, events: seq<Event>)
    decreases |events|
  {
    events == [] || (Possible(p, events[0]) && PossibleRun(Next(p, events[0]), events[1..]))
  }

  ghost function After(p: Pool, events: seq<Event>): Pool
    requires PossibleRun(p, events)
    decreases |events|
  {
    if events == [] then p else After(Next(p, events[0]), events[1..])
  }

  /**
   No lost wake-up: in every run, a caller still asleep on the open generation
   asks for more than is free, so whoever could be admitted has been woken; and
   the bytes in use never exceed the capacity.
   */
  lemma {:induction false} NoLostWakeUp(p: Pool, events: seq<Event>)
    requires Sound(p) && PossibleRun(p, events)
    ensures Sound(After(p, events))
    ensures var q := After(p, events);
            forall c :: c in q.asleep && q.asleep[c].request <= q.capacity - q.used ==>
              Possible(q, Wake(c, false)) && c !in Next(q, Wake(c, false)).asleep
    decreases |events|
  {
    hide Next, Possible;
    if events == [] {
      FittingSleepersWake(p);
    } else {
      NextSound(p, events[0]);
      NoLostWakeUp(Next(p, events[0]), events[1..]);
    }
  }

  lemma FittingSleepersWake(p: Pool)
    requires Sound(p)
    ensures forall c :: c in p.asleep && p.asleep[c].request <= p.capacity - p.used ==>
              Possible(p, Wake(c, false)) && c !in Next(p, Wake(c, false)).asleep
  {
    forall c | c in p.asleep && p.asleep[c].request <= p.capacity - p.used
      ensures Possible(p, Wake(c, false)) && c !in Next(p, Wake(c, false)).asleep
    {
      WokenSound(p, c);
    }
  }
}
