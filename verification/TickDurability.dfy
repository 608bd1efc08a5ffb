/** When a tick is stored twice: exactly when the store kept it although its answer
    sends the tick back to be written again, and then kept it again. */
module TickDurability {
  import opened Wrappers
  import opened LossLedger
  import opened TickWriter

  /** Each tick at most once. */
  ghost predicate OnceEach(ticks: seq<Tick>) {
    forall t :: multiset(ticks)[t] <= 1
  }

  /** At this moment the store keeps the tick, whatever it replies. */
  ghost predicate Stores(worlds: seq<World>, events: seq<Event>, k: nat, t: Tick)
    requires k < |events| && k < |worlds|
  {
    events[k].End? && events[k].stored && t in worlds[k].writer.inFlight
  }

  /** How often the store has kept the tick before `n`. */
  ghost function StoredCount(worlds: seq<World>, events: seq<Event>, n: nat, t: Tick): nat
    requires n <= |events| < |worlds|
  {
    if n == 0 then 0
    else StoredCount(worlds, events, n - 1, t) + (if Stores(worlds, events, n - 1, t) then 1 else 0)
  }

  // ----- what never changes back -------------------------------------------

  predicate Settled(world: World, t: Tick) {
    t in world.written || t in world.lost
  }

  lemma StepKeepsSettled(c: Config, world: World, event: Event, t: Tick)
    requires Enabled(world, event)
    ensures Settled(world, t) ==> Settled(Next(c, world, event), t)
    ensures world.offered <= Next(c, world, event).offered
  {
  }

  lemma {:induction false} SettledStays(c: Config, worlds: seq<World>, events: seq<Event>, clock: int, k: nat, n: nat, t: Tick)
    requires IsRun(c, worlds, events, clock) && k <= n < |worlds|
    ensures Settled(worlds[k], t) ==> Settled(worlds[n], t)
    ensures worlds[k].offered <= worlds[n].offered
    decreases n - k
  {
    if k < n {
      SettledStays(c, worlds, events, clock, k, n - 1, t);
      OneMoreSettled(c, worlds, events, clock, n - 1, t);
    }
  }

  lemma OneMoreSettled(c: Config, worlds: seq<World>, events: seq<Event>, clock: int, k: nat, t: Tick)
    requires IsRun(c, worlds, events, clock) && k < |events|
    ensures Settled(worlds[k], t) ==> Settled(worlds[k + 1], t)
    ensures worlds[k].offered <= worlds[k + 1].offered
  {
    assert Steps(c, worlds[k], events[k], worlds[k + 1]);
    StepKeepsSettled(c, worlds[k], events[k], t);
  }

  lemma OnceEachPrefix(a: seq<Tick>, b: seq<Tick>)
    requires a <= b && OnceEach(b)
    ensures OnceEach(a)
  {
    assert b == a + b[|a|..];
    forall t ensures multiset(a)[t] <= 1 {
      assert multiset(b)[t] == multiset(a)[t] + multiset(b[|a|..])[t];
    }
  }

  /** A tick that was written or lost is nowhere else, and a batch holds none twice. */
  lemma SettledIsGone(c: Config, world: World, t: Tick)
    requires Sound(c, world) && OnceEach(world.offered)
    ensures Settled(world, t) ==> t !in world.writer.inFlight
    ensures multiset(world.writer.inFlight)[t] <= 1
  {
    assert multiset(world.offered)[t] == multiset(world.written)[t] + multiset(world.lost)[t]
      + multiset(world.writer.inFlight)[t] + multiset(world.writer.buffer)[t];
    assert t in world.written <==> multiset(world.written)[t] > 0;
    assert t in world.lost <==> multiset(world.lost)[t] > 0;
    assert t in world.writer.inFlight <==> multiset(world.writer.inFlight)[t] > 0;
  }

  /** The tick is put back in front of the buffer when the batch is answered. */
  predicate GoesBack(c: Config, w: Writer, reply: Reply, t: Tick) {
    Restores(w, reply) && t in w.inFlight[..Fits(c, w.buffer, w.inFlight)]
  }

  /** A tick that does not go back is over when its batch is answered. */
  lemma AnsweredIsSettled(c: Config, world: World, event: Event, t: Tick)
    requires Enabled(world, event) && event.End? && t in world.writer.inFlight
    requires !GoesBack(c, world.writer, event.reply, t)
    ensures Settled(Next(c, world, event), t)
  {
    InEitherPart(world.writer.inFlight, Fits(c, world.writer.buffer, world.writer.inFlight), t);
  }

  lemma InEitherPart(batch: seq<Tick>, n: nat, t: Tick)
    requires n <= |batch|
    ensures t in batch <==> t in batch[..n] || t in batch[n..]
  {
    assert batch == batch[..n] + batch[n..];
  }

  // ----- what the store holds ----------------------------------------------

  lemma {:induction false} DurableCounts(c: Config, worlds: seq<World>, events: seq<Event>, clock: int, n: nat, t: Tick)
    requires c.Valid() && IsRun(c, worlds, events, clock) && n < |worlds| && OnceEach(worlds[n].offered)
    ensures multiset(worlds[n].durable)[t] == StoredCount(worlds, events, n, t)
  {
    if n > 0 {
      SettledStays(c, worlds, events, clock, n - 1, n, t);
      OnceEachPrefix(worlds[n - 1].offered, worlds[n].offered);
      DurableCounts(c, worlds, events, clock, n - 1, t);
      EveryReachableWriter(c, worlds, events, clock, n - 1);
      SettledIsGone(c, worlds[n - 1], t);
      assert Steps(c, worlds[n - 1], events[n - 1], worlds[n]);
      OneStepCounts(c, worlds[n - 1], events[n - 1], t);
    }
  }

  lemma OneStepCounts(c: Config, world: World, event: Event, t: Tick)
    requires Enabled(world, event) && multiset(world.writer.inFlight)[t] <= 1
    ensures multiset(Next(c, world, event).durable)[t] == multiset(world.durable)[t]
      + (if event.End? && event.stored && t in world.writer.inFlight then 1 else 0)
  {
    assert t in world.writer.inFlight <==> multiset(world.writer.inFlight)[t] > 0;
  }

  lemma {:induction false} CountedOnce(worlds: seq<World>, events: seq<Event>, n: nat, j: nat, t: Tick)
    requires j < n <= |events| < |worlds| && Stores(worlds, events, j, t)
    ensures StoredCount(worlds, events, n, t) >= 1
  {
    if j < n - 1 {
      CountedOnce(worlds, events, n - 1, j, t);
    }
  }

  lemma {:induction false} CountedTwice(worlds: seq<World>, events: seq<Event>, n: nat, i: nat, j: nat, t: Tick)
    requires i < j < n <= |events| < |worlds| && Stores(worlds, events, i, t) && Stores(worlds, events, j, t)
    ensures StoredCount(worlds, events, n, t) >= 2
  {
    if j == n - 1 {
      CountedOnce(worlds, events, j, i, t);
    } else {
      CountedTwice(worlds, events, n - 1, i, j, t);
    }
  }

  lemma {:induction false} LastKept(worlds: seq<World>, events: seq<Event>, n: nat, t: Tick) returns (j: nat)
    requires n <= |events| < |worlds| && StoredCount(worlds, events, n, t) >= 1
    ensures j < n && Stores(worlds, events, j, t) && StoredCount(worlds, events, j, t) == StoredCount(worlds, events, n, t) - 1
  {
    if Stores(worlds, events, n - 1, t) {
      j := n - 1;
    } else {
      j := LastKept(worlds, events, n - 1, t);
    }
  }

  /** The store keeps a tick that goes back to be written again. */
  ghost predicate KeptAndRestored(c: Config, worlds: seq<World>, events: seq<Event>, k: nat, t: Tick)
    requires k < |events| && k < |worlds|
  {
    Stores(worlds, events, k, t) && GoesBack(c, worlds[k].writer, events[k].reply, t)
  }

  /** A tick kept twice went back the first time. */
  lemma KeptTwiceWentBack(c: Config, worlds: seq<World>, events: seq<Event>, clock: int, i: nat, j: nat, t: Tick)
    requires c.Valid() && IsRun(c, worlds, events, clock) && i < j < |events| && OnceEach(worlds[j].offered)
    requires Stores(worlds, events, i, t) && Stores(worlds, events, j, t)
    ensures KeptAndRestored(c, worlds, events, i, t)
  {
    assert Steps(c, worlds[i], events[i], worlds[i + 1]);
    EveryReachableWriter(c, worlds, events, clock, j);
    SettledStays(c, worlds, events, clock, i + 1, j, t);
    SettledIsGone(c, worlds[j], t);
    if !GoesBack(c, worlds[i].writer, events[i].reply, t) {
      AnsweredIsSettled(c, worlds[i], events[i], t);
    }
  }

  /** A tick is kept, goes back, and is kept again. */
  ghost predicate KeptAgain(c: Config, worlds: seq<World>, events: seq<Event>, i: nat, j: nat, t: Tick)
    requires i < j < |events| && |events| < |worlds|
  {
    KeptAndRestored(c, worlds, events, i, t) && Stores(worlds, events, j, t)
  }

  /** Of ticks offered once each, the store holds one twice exactly when it kept a
      tick that then went back, and kept it again. */
  lemma DurableOnceIff(c: Config, worlds: seq<World>, events: seq<Event>, clock: int, n: nat)
    requires c.Valid() && IsRun(c, worlds, events, clock) && n < |worlds| && OnceEach(worlds[n].offered)
    ensures OnceEach(worlds[n].durable)
       <==> forall i, j, t :: 0 <= i < j < n ==> !KeptAgain(c, worlds, events, i, j, t)
  {
    forall t ensures multiset(worlds[n].durable)[t] == StoredCount(worlds, events, n, t) {
      DurableCounts(c, worlds, events, clock, n, t);
    }
    if OnceEach(worlds[n].durable) {
      forall i, j, t | 0 <= i < j < n ensures !KeptAgain(c, worlds, events, i, j, t) {
        if KeptAgain(c, worlds, events, i, j, t) {
          CountedTwice(worlds, events, n, i, j, t);
        }
      }
    } else {
      var t :| multiset(worlds[n].durable)[t] > 1;
      var j := LastKept(worlds, events, n, t);
      var i := LastKept(worlds, events, j, t);
      SettledStays(c, worlds, events, clock, j, n, t);
      OnceEachPrefix(worlds[j].offered, worlds[n].offered);
      KeptTwiceWentBack(c, worlds, events, clock, i, j, t);
      assert KeptAgain(c, worlds, events, i, j, t);
    }
  }

  // ----- what is asked of the store ----------------------------------------

  /** A store that never keeps a tick that goes back holds every tick at most once,
      whatever else it replies: a batch it keeps and then reports as not committed
      does no harm when the writer gives that batch up. */
  lemma CarefulStoreHoldsOnce(c: Config, worlds: seq<World>, events: seq<Event>, clock: int, n: nat)
    requires c.Valid() && IsRun(c, worlds, events, clock) && n < |worlds| && OnceEach(worlds[n].offered)
    requires forall k, t :: 0 <= k < n ==> !KeptAndRestored(c, worlds, events, k, t)
    ensures OnceEach(worlds[n].durable)
  {
    DurableOnceIff(c, worlds, events, clock, n);
    forall i, j, t | 0 <= i < j < n ensures !KeptAgain(c, worlds, events, i, j, t) {
      assert !KeptAndRestored(c, worlds, events, i, t);
    }
  }

  /** What goes back is in the next batch. */
  lemma BackIsNext(c: Config, world: World, event: Event, t: Tick)
    requires c.Valid() && Bounded(c, world) && Enabled(world, event)
    requires event.End? && GoesBack(c, world.writer, event.reply, t)
    ensures
      var back := Next(c, world, event);
      && Enabled(back, Begin) && t in Take(c, back.writer).inFlight && back.clock == event.now
      && (event.stored ==> back.durable == world.durable + world.writer.inFlight)
  {
    var front := world.writer.inFlight[..Fits(c, world.writer.buffer, world.writer.inFlight)];
    var next := Next(c, world, event).writer;
    assert next.buffer == front + world.writer.buffer;
    assert front <= Take(c, next).inFlight;
  }

  /** A batch that is taken, kept and confirmed. */
  lemma ConfirmedIsKept(c: Config, world: World, later: int)
    requires c.Valid() && Enabled(world, Begin) && world.clock <= later
    ensures
      var flying := Next(c, world, Begin);
      var confirm := End(Acknowledged(Some(|flying.writer.inFlight|)), true, later);
      Enabled(flying, confirm) && Next(c, flying, confirm).durable == world.durable + Take(c, world.writer).inFlight
  {
  }

  lemma TwiceIsMany(before: seq<Tick>, a: seq<Tick>, b: seq<Tick>, t: Tick)
    requires t in a && t in b
    ensures !OnceEach(before + a + b)
  {
    assert t in multiset(a) && t in multiset(b);
    assert multiset(before + a + b)[t] == multiset(before)[t] + multiset(a)[t] + multiset(b)[t];
  }

  /** One tick kept although it goes back is enough: the next batch writes it again,
      and a store that confirms that batch then holds it twice. */
  lemma KeptAndRestoredIsDoubled(c: Config, world: World, event: Event, t: Tick, later: int)
    requires Sound(c, world) && Enabled(world, event)
    requires event.End? && event.stored && GoesBack(c, world.writer, event.reply, t) && event.now <= later
    ensures
      var back := Next(c, world, event);
      Enabled(back, Begin) &&
      var flying := Next(c, back, Begin);
      var confirm := End(Acknowledged(Some(|flying.writer.inFlight|)), true, later);
      Enabled(flying, confirm) && !OnceEach(Next(c, flying, confirm).durable)
  {
    var batch := world.writer.inFlight;
    InEitherPart(batch, Fits(c, world.writer.buffer, batch), t);
    BackIsNext(c, world, event, t);
    ConfirmedIsKept(c, Next(c, world, event), later);
    TwiceIsMany(world.durable, batch, Take(c, Next(c, world, event).writer).inFlight, t);
  }
}
