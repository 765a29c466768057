/**
 The pool of FTP session tasks: a counting semaphore says how many sessions are free, a ring under a mutex says
 which. Obtaining takes the semaphore first and a session second; releasing puts the session back first and the
 semaphore second, so tasks can be caught between the two.
 */
module FtpPool {
  import opened Bytes

  /** `granted` obtains are past the semaphore but not the ring; `returned` releases the other way round. */
  datatype Pool = Pool(queue: seq<nat>, head: nat, tail: nat, sem: nat, granted: nat, returned: nat, held: set<nat>)

  function Wrap(x: nat, count: nat): nat { if x >= count then x - count else x }

  function FreeCount(p: Pool): nat { p.sem + p.granted + p.returned }

  /** Ring index of the `i`th free session. */
  function Slot(p: Pool, i: nat): nat { Wrap(p.head + i, |p.queue|) }

  /** The free sessions, in ring order. */
  function Free(p: Pool): (r: seq<nat>)
    requires FreeCount(p) <= |p.queue| && (p.queue != [] ==> p.head < |p.queue|)
    ensures |r| == FreeCount(p) && forall i :: 0 <= i < |r| ==> r[i] == p.queue[Slot(p, i)]
  {
    seq(FreeCount(p), i requires 0 <= i < FreeCount(p) => p.queue[Slot(p, i)])
  }

  /** `free` lists each session of `0..count` once that is not held, and no other. */
  ghost predicate Parted(free: seq<nat>, held: set<nat>, count: nat) {
    && (forall i, j :: 0 <= i < j < |free| ==> free[i] != free[j])
    && (forall s: nat :: s in held <==> s < count && s !in free)
    && (forall s :: s in free ==> s < count)
  }

  lemma PartedTake(free: seq<nat>, held: set<nat>, count: nat)
    requires Parted(free, held, count) && free != []
    ensures free[0] !in held && Parted(free[1..], held + {free[0]}, count)
  {
    assert free == [free[0]] + free[1..];
    assert free[0] in free && free[0] !in free[1..];
    forall s: nat ensures s in held + {free[0]} <==> s < count && s !in free[1..] {
      assert s in free <==> s == free[0] || s in free[1..];
    }
    forall s | s in free[1..] ensures s < count { assert s in free; }
  }

  lemma PartedGive(free: seq<nat>, held: set<nat>, count: nat, s: nat)
    requires Parted(free, held, count) && s in held
    ensures Parted(free + [s], held - {s}, count)
  {
  }

  /** Free and held sessions partition the pool, and the ring's tail is right behind the free ones. */
  ghost predicate Inv(p: Pool) {
    var count := |p.queue|;
    && FreeCount(p) + |p.held| == count
    && (count > 0 ==> p.head < count && p.tail == Wrap(p.head + FreeCount(p), count))
    && Parted(Free(p), p.held, count)
  }

  // ---------------------------------------------------------------- atomic steps

  datatype Step = TakeSem | Dequeue | Enqueue(session: nat) | GiveSem

  predicate Enabled(p: Pool, s: Step) {
    match s
    case TakeSem => p.sem > 0
    case Dequeue => p.granted > 0
    case Enqueue(session) => session in p.held
    case GiveSem => p.returned > 0
  }

  function Next(p: Pool, s: Step): Pool
    requires Enabled(p, s) && p.head < |p.queue| && p.tail < |p.queue|
  {
    match s
    case TakeSem => p.(sem := p.sem - 1, granted := p.granted + 1)
    case Dequeue =>
      p.(head := Wrap(p.head + 1, |p.queue|), granted := p.granted - 1, held := p.held + {p.queue[p.head]})
    case Enqueue(session) =>
      p.(queue := p.queue[p.tail := session], tail := Wrap(p.tail + 1, |p.queue|),
         held := p.held - {session}, returned := p.returned + 1)
    case GiveSem => p.(sem := p.sem + 1, returned := p.returned - 1)
  }

  function Start(count: nat): Pool {
    Pool(seq(count, i => i), 0, 0, count, 0, 0, {})
  }

  lemma StartInv(count: nat)
    ensures Inv(Start(count)) && Free(Start(count)) == seq(count, i => i)
  {
    var p := Start(count);
    var f := Free(p);
    assert forall i :: 0 <= i < count ==> f[i] == i;
    forall s: nat | s < count ensures s in f { assert f[s] == s; }
  }

  lemma DequeueFree(p: Pool)
    requires Inv(p) && p.granted > 0
    ensures p.head < |p.queue| && p.tail < |p.queue|
    ensures FreeCount(p) > 0 && Free(p)[0] == p.queue[p.head]
    ensures Free(Next(p, Dequeue)) == Free(p)[1..]
  {
    var q := Next(p, Dequeue);
    forall i | 0 <= i < FreeCount(q) ensures Free(q)[i] == Free(p)[1..][i] {
      assert Slot(q, i) == Slot(p, i + 1);
    }
  }

  /** A session that is handed out was free, and nobody else holds it. */
  lemma DequeueStep(p: Pool)
    requires Inv(p) && p.granted > 0
    ensures p.head < |p.queue| && p.tail < |p.queue|
    ensures p.queue[p.head] !in p.held
    ensures Free(Next(p, Dequeue)) == Free(p)[1..] && Inv(Next(p, Dequeue))
  {
    DequeueFree(p);
    PartedTake(Free(p), p.held, |p.queue|);
    hide Free, Parted;
  }

  /** A release finds an unused slot: no free session is overwritten. */
  lemma EnqueueStep(p: Pool, session: nat)
    requires Inv(p) && session in p.held
    ensures p.head < |p.queue| && p.tail < |p.queue| && FreeCount(p) < |p.queue|
    ensures forall i :: 0 <= i < FreeCount(p) ==> Slot(p, i) != p.tail
    ensures Free(Next(p, Enqueue(session))) == Free(p) + [session] && Inv(Next(p, Enqueue(session)))
  {
    assert |p.held| > 0;
    var q := Next(p, Enqueue(session));
    var n := FreeCount(p);
    forall i | 0 <= i <= n ensures Free(q)[i] == if i < n then Free(p)[i] else session {
      assert Slot(q, i) == Slot(p, i);
    }
    assert Free(q) == Free(p) + [session];
    PartedGive(Free(p), p.held, |p.queue|, session);
    hide Free, Parted;
  }

  lemma SemStep(p: Pool, s: Step)
    requires Inv(p) && Enabled(p, s) && (s.TakeSem? || s.GiveSem?)
    ensures p.head < |p.queue| && p.tail < |p.queue|
    ensures Free(Next(p, s)) == Free(p) && Inv(Next(p, s))
  {
    assert Free(Next(p, s)) == Free(p);
  }

  // ---------------------------------------------------------------- all interleavings

  /** A run: each state is reached from the one before by some enabled step of some task. */
  ghost predicate Run(states: seq<Pool>, steps: seq<Step>, count: nat) {
    && |states| == |steps| + 1 && states[0] == Start(count)
    && forall i :: 0 <= i < |steps| ==>
         && Enabled(states[i], steps[i]) && states[i].head < |states[i].queue| && states[i].tail < |states[i].queue|
         && states[i + 1] == Next(states[i], steps[i])
  }

  lemma {:induction false} RunKeepsInv(states: seq<Pool>, steps: seq<Step>, count: nat, k: nat)
    requires Run(states, steps, count) && k < |states|
    ensures Inv(states[k]) && |states[k].queue| == count
  {
    if k == 0 {
      StartInv(count);
    } else {
      RunKeepsInv(states, steps, count, k - 1);
      var p, s := states[k - 1], steps[k - 1];
      match s
      case Dequeue => DequeueStep(p);
      case Enqueue(session) => EnqueueStep(p, session);
      case _ => SemStep(p, s);
    }
  }

  /** In every interleaving no session is handed out while it is held, and no release overwrites a free one. */
  lemma NeverTwice(states: seq<Pool>, steps: seq<Step>, count: nat, k: nat)
    requires Run(states, steps, count) && k < |steps|
    ensures steps[k].Dequeue? ==>
      states[k].queue[states[k].head] !in states[k].held && states[k].queue[states[k].head] < count
    ensures steps[k].Enqueue? ==>
      forall i :: 0 <= i < FreeCount(states[k]) ==> Slot(states[k], i) != states[k].tail
  {
    RunKeepsInv(states, steps, count, k);
    if steps[k].Dequeue? { DequeueStep(states[k]); }
    if steps[k].Enqueue? { EnqueueStep(states[k], steps[k].session); }
  }

  // ---------------------------------------------------------------- the pool itself

  class TaskPool {
    const queue: array<nat>
    var head: nat
    var tail: nat
    var sem: nat
    ghost var granted: nat
    ghost var returned: nat
    ghost var held: set<nat>

    ghost function View(): Pool
      reads this, queue
    {
      Pool(queue[..], head, tail, sem, granted, returned, held)
    }

    constructor (count: nat)
      ensures fresh(queue) && View() == Start(count) && Inv(View())
    {
      head, tail, sem, granted, returned, held := 0, 0, count, 0, 0, {};
      queue := new nat[count];
      new;
      for i := 0 to count
        invariant forall k :: 0 <= k < i ==> queue[k] == k
        invariant head == 0 && tail == 0 && sem == count && granted == 0 && returned == 0 && held == {}
      {
        queue[i] := i;
      }
      assert queue[..] == seq(count, i => i);
      StartInv(count);
    }

    /** The semaphore, without waiting. */
    method TryTakeSem() returns (ok: bool)
      requires Inv(View())
      modifies this
      ensures ok == (old(sem) > 0)
      ensures ok ==> Enabled(old(View()), TakeSem) && InBounds(old(View())) && View() == Next(old(View()), TakeSem)
      ensures !ok ==> View() == old(View())
      ensures Inv(View())
    {
      hide Inv;
      ok := sem > 0;
      if ok {
        SemStep(View(), TakeSem);
        sem, granted := sem - 1, granted + 1;
      }
    }

    /** The ring, under the mutex. */
    method DequeueSession() returns (info: nat)
      requires Inv(View()) && granted > 0
      modifies this
      ensures InBounds(old(View())) && View() == Next(old(View()), Dequeue) && Inv(View())
      ensures info !in old(held) && held == old(held) + {info}
    {
      hide Inv;
      DequeueStep(View());
      info := queue[head];
      head := head + 1;
      if head >= queue.Length { head := 0; }
      granted, held := granted - 1, held + {info};
    }

    method EnqueueSession(info: nat)
      requires Inv(View()) && info in held
      modifies this, queue
      ensures InBounds(old(View())) && View() == Next(old(View()), Enqueue(info)) && Inv(View())
    {
      hide Inv;
      EnqueueStep(View(), info);
      queue[tail] := info;
      tail := tail + 1;
      if tail >= queue.Length { tail := 0; }
      held, returned := held - {info}, returned + 1;
    }

    method GiveSemBack()
      requires Inv(View()) && returned > 0
      modifies this
      ensures InBounds(old(View())) && View() == Next(old(View()), GiveSem) && Inv(View())
    {
      hide Inv;
      SemStep(View(), GiveSem);
      sem, returned := sem + 1, returned - 1;
    }

    /** Obtain without interruption: a session nobody holds, or none exactly when the semaphore is at zero. */
    method Obtain() returns (info: Option<nat>)
      requires Inv(View())
      modifies this
      ensures Inv(View()) && (info.None? <==> old(sem) == 0)
      ensures info.Some? ==> info.value !in old(held) && held == old(held) + {info.value} && sem == old(sem) - 1
      ensures info.None? ==> View() == old(View())
    {
      hide Inv;
      info := None;
      var ok := TryTakeSem();
      if ok {
        var s := DequeueSession();
        info := Some(s);
      }
    }

    method Release(info: nat)
      requires Inv(View()) && info in held
      modifies this, queue
      ensures Inv(View()) && held == old(held) - {info} && sem == old(sem) + 1
    {
      hide Inv;
      EnqueueSession(info);
      GiveSemBack();
    }
  }

  predicate InBounds(p: Pool) { p.head < |p.queue| && p.tail < |p.queue| }
}
