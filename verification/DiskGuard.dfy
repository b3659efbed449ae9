/** The disk guard of the uploads: free space is compared with a reserve at the start and
    then every 64 MiB, by every upload on its own. How far below the reserve can several
    uploads together push the disk? */
module DiskGuard {
  import opened Text

  const CHUNK: int := 0x10_0000
  const POLL: int := 64 * CHUNK

  /** The most one upload can write between two of its checks. */
  const BURST: int := POLL + CHUNK - 1

  const DEFAULT_RESERVE: int := 268_435_456

  datatype Limits = Limits(reserve: int, maxSize: int)

  const DISK_LOW := 507
  const TOO_LARGE := 413

  /** The rule all checks share: the status code of the refusal, if any. */
  function Blocked(limits: Limits, free: int, expected: int, total: Option<int>): Option<int> {
    var need := if total.Some? && total.value > 0 && total.value > expected then total.value else expected;
    if free <= limits.reserve then Some(DISK_LOW)
    else if need > limits.maxSize then Some(TOO_LARGE)
    else if need > 0 && free <= need + limits.reserve then Some(DISK_LOW)
    else None
  }

  /** Both sizes an upload can announce fit: neither is over the limit, and after writing either
      of them, or any part of it, more than the reserve is free. */
  predicate Fits(limits: Limits, free: int, size: int) {
    size <= limits.maxSize && (size > 0 ==> free - size > limits.reserve)
  }

  /** Admission, and the code of each refusal: too large whenever a size announced is over the
      limit, unless the disk is low before anything is written. */
  lemma BlockedMeans(limits: Limits, free: int, expected: int, total: Option<int>)
    ensures
      var r := Blocked(limits, free, expected, total);
      var upper := if total.Some? && total.value > 0 then total.value else expected;
      && (r == None <==> free > limits.reserve && Fits(limits, free, expected) && Fits(limits, free, upper))
      && (r == Some(413) <==> free > limits.reserve && (expected > limits.maxSize || upper > limits.maxSize))
      && (r == None || r == Some(413) || r == Some(507))
  {
  }

  /** Whatever part of an admitted upload is written, the disk stays above the reserve. */
  lemma AdmittedStaysAbove(limits: Limits, free: int, expected: int, total: Option<int>, written: nat)
    requires Blocked(limits, free, expected, total) == None
    requires written <= expected || (total.Some? && written <= total.value)
    ensures free - written > limits.reserve
  {
    BlockedMeans(limits, free, expected, total);
  }

  // ---- Interleaved uploads ----------------------------------------------

  /** One of k simultaneous uploads: what it wrote in all and since its own last check. */
  datatype Slot = Idle | Busy(size: nat, pending: nat)

  datatype State = State(free: int, slots: seq<Slot>)

  /** What can happen next: a check on entry, one chunk, one check, the end of an upload,
      its failure, or space given back by somebody else. */
  datatype Step =
    | Start(k: nat, need: int)
    | Write(k: nat, n: nat)
    | Poll(k: nat)
    | Finish(k: nat)
    | Abort(k: nat)
    | Release(n: nat)

  predicate Enabled(s: State, step: Step, limits: Limits) {
    match step
    case Start(k, need) => k < |s.slots| && s.slots[k].Idle? && Blocked(limits, s.free, need, None).None?
    case Write(k, n) => k < |s.slots| && s.slots[k].Busy? && s.slots[k].pending < POLL && 1 <= n <= CHUNK
    case Poll(k) => k < |s.slots| && s.slots[k].Busy? && s.slots[k].pending >= POLL
    case Finish(k) => k < |s.slots| && s.slots[k].Busy? && s.slots[k].pending < POLL
    case Abort(k) => k < |s.slots| && s.slots[k].Busy?
    case Release(_) => true
  }

  /** An upload that fails gives back what it wrote. */
  function Drop(s: State, k: nat): State
    requires k < |s.slots| && s.slots[k].Busy?
  {
    State(s.free + s.slots[k].size, s.slots[k := Idle])
  }

  /** The state after a step; a step that cannot happen changes nothing. */
  function Next(s: State, step: Step, limits: Limits): (t: State)
    ensures |t.slots| == |s.slots|
  {
    if !Enabled(s, step, limits) then s
    else
      match step
      case Start(k, _) => s.(slots := s.slots[k := Busy(0, 0)])
      case Write(k, n) =>
        State(s.free - n, s.slots[k := Busy(s.slots[k].size + n, s.slots[k].pending + n)])
      case Poll(k) =>
        if Blocked(limits, s.free, 0, None).Some? then Drop(s, k)
        else s.(slots := s.slots[k := Busy(s.slots[k].size, 0)])
      case Finish(k) => s.(slots := s.slots[k := Idle])
      case Abort(k) => Drop(s, k)
      case Release(n) => s.(free := s.free + n)
  }

  function Run(s: State, steps: seq<Step>, limits: Limits): (t: State)
    ensures |t.slots| == |s.slots|
    decreases |steps|
  {
    if steps == [] then s else Run(Next(s, steps[0], limits), steps[1..], limits)
  }

  predicate AllIdle(s: State) { forall k :: 0 <= k < |s.slots| ==> s.slots[k].Idle? }

  // ---- The invariant ----------------------------------------------------

  function Sum(xs: seq<nat>): nat { if xs == [] then 0 else xs[0] + Sum(xs[1..]) }

  lemma {:induction false} SumUpdate(xs: seq<nat>, k: nat, n: nat)
    requires k < |xs|
    ensures Sum(xs[k := xs[k] + n]) == Sum(xs) + n
  {
    var ys := xs[k := xs[k] + n];
    if k == 0 {
      assert ys[1..] == xs[1..];
    } else {
      assert ys[1..] == xs[1..][k - 1 := xs[1..][k - 1] + n];
      SumUpdate(xs[1..], k - 1, n);
    }
  }

  lemma {:induction false} SumBound(xs: seq<nat>, m: nat)
    requires forall i :: 0 <= i < |xs| ==> xs[i] <= m
    ensures Sum(xs) <= |xs| * m
  {
    if xs != [] { SumBound(xs[1..], m); }
  }

  function Zeros(n: nat): seq<nat> { seq(n, _ => 0) }

  lemma {:induction false} SumZeros(n: nat)
    ensures Sum(Zeros(n)) == 0
  {
    if n > 0 {
      assert Zeros(n)[1..] == Zeros(n - 1);
      SumZeros(n - 1);
    }
  }

  /** since[k] is what slot k wrote since the last check that anyone passed; together they
      account for everything below the reserve. */
  ghost predicate Accounted(s: State, since: seq<nat>, limits: Limits) {
    && |since| == |s.slots|
    && s.free > limits.reserve - Sum(since)
    && (forall k :: 0 <= k < |since| ==> since[k] <= BURST)
    && (forall k :: 0 <= k < |since| && s.slots[k].Busy? ==>
          since[k] <= s.slots[k].pending <= BURST && s.slots[k].pending <= s.slots[k].size)
  }

  /** The account after a step. */
  function Since(s: State, since: seq<nat>, step: Step, limits: Limits): seq<nat>
    requires |since| == |s.slots|
  {
    if !Enabled(s, step, limits) then since
    else
      match step
      case Start(_, _) => Zeros(|since|)
      case Write(k, n) => since[k := since[k] + n]
      case Poll(_) => if Blocked(limits, s.free, 0, None).Some? then since else Zeros(|since|)
      case _ => since
  }

  /** Every step keeps the account; in particular a passed check settles all of it. */
  lemma StepAccounted(s: State, since: seq<nat>, step: Step, limits: Limits)
    requires Accounted(s, since, limits)
    ensures Accounted(Next(s, step, limits), Since(s, since, step, limits), limits)
  {
    SumZeros(|since|);
    if Enabled(s, step, limits) && step.Write? {
      SumUpdate(since, step.k, step.n);
    }
  }

  /** Before the first admission nothing was written; the first admission opens the account. */
  lemma FirstStep(s: State, step: Step, limits: Limits)
    requires AllIdle(s)
    ensures
      var t := Next(s, step, limits);
      (AllIdle(t) && t.free >= s.free) || Accounted(t, Zeros(|s.slots|), limits)
  {
    SumZeros(|s.slots|);
  }

  lemma {:induction false} RunAccounted(s: State, since: seq<nat>, steps: seq<Step>, limits: Limits)
    returns (later: seq<nat>)
    requires Accounted(s, since, limits)
    ensures Accounted(Run(s, steps, limits), later, limits)
    decreases |steps|
  {
    if steps == [] {
      later := since;
    } else {
      StepAccounted(s, since, steps[0], limits);
      later := RunAccounted(Next(s, steps[0], limits), Since(s, since, steps[0], limits), steps[1..], limits);
    }
  }

  // ---- Main results -----------------------------------------------------

  /** Over every interleaving of k uploads that nobody else disturbs by writing, the disk is
      never pushed more than k bursts below the reserve. */
  lemma {:induction false} GuardBound(s: State, steps: seq<Step>, limits: Limits)
    requires AllIdle(s)
    ensures
      var t := Run(s, steps, limits);
      t.free >= s.free || t.free > limits.reserve - |s.slots| * BURST
    decreases |steps|
  {
    if steps != [] {
      var t := Next(s, steps[0], limits);
      FirstStep(s, steps[0], limits);
      if AllIdle(t) && t.free >= s.free {
        GuardBound(t, steps[1..], limits);
      } else {
        var since := RunAccounted(t, Zeros(|s.slots|), steps[1..], limits);
        SumBound(since, BURST);
      }
    }
  }

  /** With the default reserve, three simultaneous uploads cannot fill the disk. */
  lemma ThreeNeverFill(s: State, steps: seq<Step>, limits: Limits)
    requires AllIdle(s) && |s.slots| <= 3 && limits.reserve == DEFAULT_RESERVE && s.free > 0
    ensures Run(s, steps, limits).free > 0
  {
    GuardBound(s, steps, limits);
    assert |s.slots| * BURST <= 3 * BURST;
  }

  // ---- Where the space goes ---------------------------------------------

  /** What the uploads under way have written. */
  function Sizes(s: State): (r: seq<nat>)
    ensures |r| == |s.slots|
    ensures forall k :: 0 <= k < |r| ==> r[k] == if s.slots[k].Busy? then s.slots[k].size else 0
  {
    seq(|s.slots|, k requires 0 <= k < |s.slots| => if s.slots[k].Busy? then s.slots[k].size else 0)
  }

  lemma {:induction false} SumSet(xs: seq<nat>, k: nat, v: nat)
    requires k < |xs|
    ensures Sum(xs[k := v]) == Sum(xs) - xs[k] + v
  {
    var ys := xs[k := v];
    if k == 0 {
      assert ys[1..] == xs[1..];
    } else {
      assert ys[1..] == xs[1..][k - 1 := v];
      SumSet(xs[1..], k - 1, v);
    }
  }

  /** What a step takes from the disk for good, or gives to it: a finished upload stays, and
      space may be given back from outside. */
  function Flow(s: State, step: Step, limits: Limits): int {
    if !Enabled(s, step, limits) then 0
    else
      match step
      case Finish(k) => 0 - s.slots[k].size as int
      case Release(n) => n
      case _ => 0
  }

  function Flows(s: State, steps: seq<Step>, limits: Limits): int
    decreases |steps|
  {
    if steps == [] then 0 else Flow(s, steps[0], limits) + Flows(Next(s, steps[0], limits), steps[1..], limits)
  }

  lemma StepConserves(s: State, step: Step, limits: Limits)
    ensures
      var t := Next(s, step, limits);
      t.free + Sum(Sizes(t)) == s.free + Sum(Sizes(s)) + Flow(s, step, limits)
  {
    hide Sum, Blocked;
    var t, xs := Next(s, step, limits), Sizes(s);
    if t != s && !step.Release? {
      var k := step.k;
      var v := if t.slots[k].Busy? then t.slots[k].size else 0;
      SumSet(xs, k, v);
      assert Sizes(t) == xs[k := v];
    } else {
      assert Sizes(t) == xs;
    }
  }

  /** Over every run no byte is lost: what is free and what the uploads under way hold changes
      only by the uploads that finish and by what is given back from outside; an upload that
      fails or is blocked leaves nothing behind. */
  lemma {:induction false} RunConserves(s: State, steps: seq<Step>, limits: Limits)
    ensures
      var t := Run(s, steps, limits);
      t.free + Sum(Sizes(t)) == s.free + Sum(Sizes(s)) + Flows(s, steps, limits)
    decreases |steps|
  {
    hide Sum, Next, Flow, Sizes;
    if steps != [] {
      StepConserves(s, steps[0], limits);
      RunConserves(Next(s, steps[0], limits), steps[1..], limits);
    }
  }

  // ---- The bound is attained --------------------------------------------

  function StartAll(k: nat): seq<Step> { if k == 0 then [] else StartAll(k - 1) + [Start(k - 1, 0)] }

  function Writes(k: nat, times: nat): seq<Step> {
    if times == 0 then [] else [Write(k, CHUNK)] + Writes(k, times - 1)
  }

  /** One upload writing as much as it can without a check. */
  function BurstOf(k: nat): seq<Step> { Writes(k, 63) + [Write(k, CHUNK - 1), Write(k, CHUNK)] }

  function BurstAll(k: nat): seq<Step> { if k == 0 then [] else BurstAll(k - 1) + BurstOf(k - 1) }

  lemma {:induction false} RunConcat(s: State, a: seq<Step>, b: seq<Step>, limits: Limits)
    ensures Run(s, a + b, limits) == Run(Run(s, a, limits), b, limits)
    decreases |a|
  {
    if a == [] {
      assert a + b == b;
    } else {
      assert (a + b)[0] == a[0] && (a + b)[1..] == a[1..] + b;
      RunConcat(Next(s, a[0], limits), a[1..], b, limits);
    }
  }

  lemma {:induction false} RunWrites(s: State, k: nat, times: nat, limits: Limits)
    requires k < |s.slots| && s.slots[k].Busy? && s.slots[k].pending + times * CHUNK <= POLL
    ensures
      var n := times * CHUNK;
      Run(s, Writes(k, times), limits) ==
      State(s.free - n, s.slots[k := Busy(s.slots[k].size + n, s.slots[k].pending + n)])
    decreases times
  {
    if times == 0 {
      assert s.slots[k := s.slots[k]] == s.slots;
    } else {
      var t := Next(s, Write(k, CHUNK), limits);
      assert Writes(k, times)[1..] == Writes(k, times - 1);
      RunWrites(t, k, times - 1, limits);
      var n, size, pending := times * CHUNK, s.slots[k].size, s.slots[k].pending;
      UpdateTwice(s.slots, k, Busy(size + CHUNK, pending + CHUNK), Busy(size + n, pending + n));
    }
  }

  lemma OneStep(s: State, a: Step, limits: Limits)
    ensures Run(s, [a], limits) == Next(s, a, limits)
  {
    hide Next;
    assert [a][1..] == [];
  }

  lemma TwoSteps(s: State, a: Step, b: Step, limits: Limits)
    ensures Run(s, [a, b], limits) == Next(Next(s, a, limits), b, limits)
  {
    hide Next;
    assert [a, b][1..] == [b];
    OneStep(Next(s, a, limits), b, limits);
  }

  lemma UpdateTwice(slots: seq<Slot>, k: nat, a: Slot, b: Slot)
    requires k < |slots|
    ensures slots[k := a][k := b] == slots[k := b]
  {
  }

  lemma RunBurst(s: State, k: nat, limits: Limits)
    requires k < |s.slots| && s.slots[k] == Busy(0, 0)
    ensures Run(s, BurstOf(k), limits) == State(s.free - BURST, s.slots[k := Busy(BURST, BURST)])
  {
    RunWrites(s, k, 63, limits);
    RunConcat(s, Writes(k, 63), [Write(k, CHUNK - 1), Write(k, CHUNK)], limits);
    TwoSteps(Run(s, Writes(k, 63), limits), Write(k, CHUNK - 1), Write(k, CHUNK), limits);
    hide Run, Writes;
    var n := 63 * CHUNK;
    UpdateTwice(s.slots, k, Busy(n, n), Busy(n + CHUNK - 1, n + CHUNK - 1));
    UpdateTwice(s.slots, k, Busy(n + CHUNK - 1, n + CHUNK - 1), Busy(BURST, BURST));
  }

  /** k slots of which the first b are in a burst. */
  function Bursting(k: nat, b: nat): seq<Slot>
    requires b <= k
  {
    seq(k, i => if i < b then Busy(BURST, BURST) else Busy(0, 0))
  }

  /** k slots of which the first b have started. */
  function Started(k: nat, b: nat): seq<Slot>
    requires b <= k
  {
    seq(k, i => if i < b then Busy(0, 0) else Idle)
  }

  lemma {:induction false} RunStarts(k: nat, b: nat, limits: Limits)
    requires b <= k && limits.maxSize >= 0
    ensures Run(State(limits.reserve + 1, Started(k, 0)), StartAll(b), limits) ==
            State(limits.reserve + 1, Started(k, b))
  {
    if b > 0 {
      var s := State(limits.reserve + 1, Started(k, 0));
      RunStarts(k, b - 1, limits);
      RunConcat(s, StartAll(b - 1), [Start(b - 1, 0)], limits);
      OneStep(State(limits.reserve + 1, Started(k, b - 1)), Start(b - 1, 0), limits);
      assert Started(k, b - 1)[b - 1 := Busy(0, 0)] == Started(k, b);
    }
  }

  lemma {:induction false} RunBursts(free: int, k: nat, b: nat, limits: Limits)
    requires b <= k
    ensures Run(State(free, Bursting(k, 0)), BurstAll(b), limits) ==
            State(free - b * BURST, Bursting(k, b))
  {
    if b > 0 {
      var s := State(free, Bursting(k, 0));
      RunBursts(free, k, b - 1, limits);
      RunConcat(s, BurstAll(b - 1), BurstOf(b - 1), limits);
      RunBurst(State(free - (b - 1) * BURST, Bursting(k, b - 1)), b - 1, limits);
      assert Bursting(k, b - 1)[b - 1 := Busy(BURST, BURST)] == Bursting(k, b);
    }
  }

  /** The bound is the best there is: k uploads admitted just above the reserve can take a
      whole burst each. */
  lemma BoundAttained(k: nat, limits: Limits)
    requires limits.maxSize >= 0
    ensures AllIdle(State(limits.reserve + 1, Started(k, 0)))
    ensures Run(State(limits.reserve + 1, Started(k, 0)), StartAll(k) + BurstAll(k), limits).free ==
            limits.reserve + 1 - k * BURST
  {
    var s := State(limits.reserve + 1, Started(k, 0));
    RunConcat(s, StartAll(k), BurstAll(k), limits);
    RunStarts(k, k, limits);
    assert Started(k, k) == Bursting(k, 0);
    RunBursts(limits.reserve + 1, k, k, limits);
  }

  /** Four can: with the default reserve they ask for more than there is. */
  lemma FourCanFill(limits: Limits)
    requires limits.reserve == DEFAULT_RESERVE && limits.maxSize >= 0
    ensures Run(State(limits.reserve + 1, Started(4, 0)), StartAll(4) + BurstAll(4), limits).free < 0
  {
    hide Run, StartAll, BurstAll, Started, AllIdle;
    BoundAttained(4, limits);
  }

  // ---- One upload -------------------------------------------------------

  datatype Event = Wrote(n: nat) | Polled(free: int)

  /** Bytes written since the last check, after these events. */
  function Pending(events: seq<Event>): nat {
    if events == [] then 0
    else
      match events[|events| - 1]
      case Wrote(n) => Pending(events[..|events| - 1]) + n
      case Polled(_) => 0
  }

  function Total(events: seq<Event>): nat {
    if events == [] then 0
    else
      var front := Total(events[..|events| - 1]);
      match events[|events| - 1]
      case Wrote(n) => front + n
      case Polled(_) => front
  }

  /** Event i could happen: a chunk below the polling threshold, a check from it on, and
      nothing after a check that blocks. */
  predicate EventAllowed(events: seq<Event>, i: nat, limits: Limits)
    requires i < |events|
  {
    match events[i]
    case Wrote(n) => Pending(events[..i]) < POLL && 1 <= n <= CHUNK
    case Polled(free) =>
      Pending(events[..i]) >= POLL && (Blocked(limits, free, 0, None).Some? ==> i == |events| - 1)
  }

  predicate Disciplined(events: seq<Event>, limits: Limits) {
    forall i :: 0 <= i < |events| ==> EventAllowed(events, i, limits)
  }

  /** The write loop of one upload, on the chunks it receives and the free space it reads at
      its checks: it behaves as the steps above allow, and ends blocked exactly when its last
      check failed, otherwise with everything written and less than a polling interval open. */
  method Receive(chunks: seq<nat>, readings: seq<int>, limits: Limits)
    returns (events: seq<Event>, size: nat, blocked: Option<int>)
    requires forall i :: 0 <= i < |chunks| ==> 1 <= chunks[i] <= CHUNK
    requires |readings| >= |chunks|
    ensures Disciplined(events, limits) && size == Total(events)
    ensures blocked.Some? <==> events != [] && events[|events| - 1].Polled? &&
                               Blocked(limits, events[|events| - 1].free, 0, None).Some?
    ensures blocked.None? ==> Pending(events) < POLL && size == Sum(chunks)
  {
    events, size, blocked := [], 0, None;
    var pending: nat := 0;
    var i, polls := 0, 0;
    while i < |chunks|
      invariant 0 <= polls <= i <= |chunks| && blocked.None?
      invariant Disciplined(events, limits) && pending == Pending(events) < POLL
      invariant size == Total(events) && size + Sum(chunks[i..]) == Sum(chunks)
      invariant events != [] && events[|events| - 1].Polled? ==>
                Blocked(limits, events[|events| - 1].free, 0, None).None?
    {
      var n := chunks[i];
      assert chunks[i..][1..] == chunks[i + 1..];
      Extend(events, Wrote(n), limits);
      events := events + [Wrote(n)];
      size := size + n;
      pending := pending + n;
      i := i + 1;
      if pending >= POLL {
        var free := readings[polls];
        polls := polls + 1;
        Extend(events, Polled(free), limits);
        events := events + [Polled(free)];
        pending := 0;
        blocked := Blocked(limits, free, 0, None);
        if blocked.Some? {
          return;
        }
      }
    }
  }

  lemma Extend(events: seq<Event>, e: Event, limits: Limits)
    requires Disciplined(events, limits)
    requires events != [] && events[|events| - 1].Polled? ==>
             Blocked(limits, events[|events| - 1].free, 0, None).None?
    requires match e
             case Wrote(n) => Pending(events) < POLL && 1 <= n <= CHUNK
             case Polled(_) => Pending(events) >= POLL
    ensures Disciplined(events + [e], limits)
    ensures Pending(events + [e]) == if e.Wrote? then Pending(events) + e.n else 0
    ensures Total(events + [e]) == Total(events) + if e.Wrote? then e.n else 0
  {
    var all := events + [e];
    assert all[..|events|] == events;
    hide Blocked;
    forall i | 0 <= i < |events| ensures EventAllowed(all, i, limits) {
      assert EventAllowed(events, i, limits);
      EarlierAllowed(events, e, i, limits);
    }
  }

  lemma EarlierAllowed(events: seq<Event>, e: Event, i: nat, limits: Limits)
    requires i < |events| && EventAllowed(events, i, limits)
    requires events[|events| - 1].Polled? ==> Blocked(limits, events[|events| - 1].free, 0, None).None?
    ensures EventAllowed(events + [e], i, limits)
  {
    hide Blocked;
    assert (events + [e])[..i] == events[..i];
  }
}
