/**
 * The bounded-concurrency fetch queue of the tag feed (omglol-theme/tag.js,
 * `inFlight`, `queue`, `runQueue`, `enqueue`). A job is named by the entry
 * whose content it loads. Starting a job stands for calling it; its promise
 * settling is the separate event `Settle`, delivered in any order.
 */
module JobQueue {

  function Min(a: int, b: int): int {
    if a < b then a else b
  }

  class Queue {
    /** `MAX_CONCURRENT_FETCHES`. */
    const max: nat
    /** `queue`: the jobs waiting to start, oldest first. */
    var pending: seq<nat>
    /** `inFlight`. */
    var inFlight: nat
    /** The jobs started whose promises have not settled yet, in start order. */
    var running: seq<nat>
    /** Every job ever enqueued, in enqueue order. */
    ghost var enqueued: seq<nat>
    /** Every job ever started, in start order. */
    ghost var started: seq<nat>

    /** Holds between two steps of `runQueue`. */
    ghost predicate Consistent()
      reads this
    {
      1 <= max && inFlight == |running| && inFlight <= max
      && enqueued == started + pending
      && (forall j :: j in running ==> j in started)
    }

    /** Holds whenever control is back with the event loop: no free slot is left idle while jobs wait. */
    ghost predicate Valid()
      reads this
    {
      Consistent() && (inFlight == max || pending == [])
    }

    constructor (max: nat)
      requires max >= 1
      ensures Valid() && this.max == max
      ensures pending == [] && running == [] && inFlight == 0
      ensures enqueued == [] && started == []
    {
      this.max := max;
      pending, running, inFlight := [], [], 0;
      enqueued, started := [], [];
    }

    /** `runQueue`: starts waiting jobs, oldest first, while a slot is free. */
    method RunQueue()
      requires Consistent()
      modifies this
      ensures Valid()
      ensures var n := Min(max - old(inFlight), |old(pending)|);
        pending == old(pending)[n..]
        && running == old(running) + old(pending)[..n]
        && started == old(started) + old(pending)[..n]
      ensures enqueued == old(enqueued)
    {
      ghost var n := 0;
      while inFlight < max && |pending| > 0
        invariant Consistent()
        invariant enqueued == old(enqueued)
        invariant 0 <= n <= |old(pending)| && n == inFlight - old(inFlight)
        invariant pending == old(pending)[n..]
        invariant running == old(running) + old(pending)[..n]
        invariant started == old(started) + old(pending)[..n]
        decreases |pending|
      {
        var job := pending[0];
        pending := pending[1..];
        inFlight := inFlight + 1;
        running := running + [job];
        started := started + [job];
        assert old(pending)[..n + 1] == old(pending)[..n] + [job];
        n := n + 1;
      }
    }

    /** `enqueue`: the job waits at the tail, then the queue runs. */
    method Enqueue(job: nat)
      requires Valid()
      modifies this
      ensures Valid()
      ensures enqueued == old(enqueued) + [job]
      ensures running + pending == old(running + pending) + [job]
      ensures old(inFlight) < max ==>
        running == old(running) + [job] && pending == [] && started == old(started) + [job]
      ensures old(inFlight) == max ==>
        running == old(running) && pending == old(pending) + [job] && started == old(started)
    {
      pending := pending + [job];
      enqueued := enqueued + [job];
      RunQueue();
    }

    /**
     * The promise of the `k`-th running job settles, fulfilled or rejected:
     * `inFlight--` and the queue runs again. The outcome plays no part.
     */
    method Settle(k: nat, rejected: bool) returns (job: nat)
      requires Valid() && k < |running|
      modifies this
      ensures Valid()
      ensures job == old(running[k])
      ensures enqueued == old(enqueued)
      ensures running + pending == old(running[..k] + running[k + 1..] + pending)
      ensures old(pending) == [] ==>
        running == old(running[..k] + running[k + 1..]) && pending == []
        && started == old(started) && inFlight == old(inFlight) - 1
      ensures old(pending) != [] ==>
        running == old(running[..k] + running[k + 1..]) + [old(pending[0])]
        && pending == old(pending[1..])
        && started == old(started) + [old(pending[0])] && inFlight == old(inFlight)
    {
      job := running[k];
      running := running[..k] + running[k + 1..];
      inFlight := inFlight - 1;
      forall j | j in running ensures j in started {
        assert j in old(running);
      }
      RunQueue();
    }
  }

  /** Five loads admitted at once with two slots: two start, three wait. */
  method FiveJobsTwoSlots()
  {
    var q := new Queue(2);
    q.Enqueue(0);
    q.Enqueue(1);
    q.Enqueue(2);
    q.Enqueue(3);
    q.Enqueue(4);
    assert q.running == [0, 1] && q.pending == [2, 3, 4];
    var done := q.Settle(1, true);
    assert done == 1 && q.running == [0, 2] && q.pending == [3, 4];
    assert q.started == [0, 1, 2];
  }
}
