/** `ConnectionRegistry`: every interleaving of threads that register, unregister and push, with the writer
    called outside the lock; and the object itself, disturbed by other threads while a writer runs. */
module Registry {
  import opened Prelude

  type SessionId = string

  /** A connection's writer callable, by identity. */
  type Writer = nat

  type Table = map<SessionId, Writer>

  type Thread = nat

  function Lookup(table: Table, id: SessionId): Option<Writer> {
    if id in table then Some(table[id]) else None
  }

  // ---- what a run does ----

  /** What a run did, in the order it took effect. A call is recorded when the writer returns or raises. */
  datatype Effect =
    | Put(id: SessionId, writer: Writer)
    | Removed(id: SessionId)
    | Looked(thread: Thread, id: SessionId, found: Option<Writer>)
    | Called(thread: Thread, id: SessionId, writer: Writer, raised: bool)
    | CleanedUp(thread: Thread, id: SessionId, failed: Writer)

  /** The effect belongs to a push of thread `t`. */
  predicate ByThread(e: Effect, t: Thread) {
    (e.Looked? || e.Called? || e.CleanedUp?) && e.thread == t
  }

  /** An effect on the table, nobody interleaved; a cleanup is a plain removal. */
  function Applied(table: Table, e: Effect): Table {
    match e
    case Put(id, writer) => table[id := writer]
    case Removed(id) => table - {id}
    case Looked(_, _, _) => table
    case Called(_, _, _, _) => table
    case CleanedUp(_, id, _) => table - {id}
  }

  /** The effects one after the other. */
  function Replay(trace: seq<Effect>): Table {
    if trace == [] then map[] else Applied(Replay(trace[..|trace| - 1]), trace[|trace| - 1])
  }

  /** The last effect of thread `t`'s pushes. */
  function LastOf(trace: seq<Effect>, t: Thread): Option<Effect> {
    if trace == [] then None
    else if ByThread(trace[|trace| - 1], t) then Some(trace[|trace| - 1])
    else LastOf(trace[..|trace| - 1], t)
  }

  /** The effects of thread `t`'s pushes, in order. */
  function OwnEffects(trace: seq<Effect>, t: Thread): seq<Effect> {
    if trace == [] then []
    else OwnEffects(trace[..|trace| - 1], t) + if ByThread(trace[|trace| - 1], t) then [trace[|trace| - 1]] else []
  }

  /** A thread whose last effect this is has no push under way. */
  predicate BetweenPushes(last: Option<Effect>) {
    match last
    case None => true
    case Some(e) => (e.Looked? && e.found.None?) || (e.Called? && !e.raised) || e.CleanedUp?
  }

  /** What a sequential execution could do next: a lookup finds what is there; the writer called is the one
      the thread's own lookup has just found; a cleanup follows the thread's own failed call. */
  predicate Allowed(before: seq<Effect>, e: Effect) {
    match e
    case Put(id, _) => id != ""
    case Removed(id) => id != ""
    case Looked(t, id, found) => found == Lookup(Replay(before), id) && BetweenPushes(LastOf(before, t))
    case Called(t, id, writer, _) => LastOf(before, t) == Some(Looked(t, id, Some(writer)))
    case CleanedUp(t, id, failed) => LastOf(before, t) == Some(Called(t, id, failed, true))
  }

  ghost predicate Legal(trace: seq<Effect>) {
    forall i | 0 <= i < |trace| :: Allowed(trace[..i], trace[i])
  }

  /** Effect `i` writes session `id`. */
  ghost predicate Writes(trace: seq<Effect>, i: int, id: SessionId) {
    0 <= i < |trace| && (trace[i].Put? || trace[i].Removed? || trace[i].CleanedUp?) && trace[i].id == id
  }

  /** Effect `i` is the last before `n` that writes session `id`. */
  ghost predicate LastWrite(trace: seq<Effect>, n: int, i: int, id: SessionId) {
    0 <= i < n <= |trace| && Writes(trace, i, id) && forall j | i < j < n :: !Writes(trace, j, id)
  }

  lemma TraceGrows(trace: seq<Effect>, e: Effect, t: Thread)
    ensures Replay(trace + [e]) == Applied(Replay(trace), e)
    ensures LastOf(trace + [e], t) == if ByThread(e, t) then Some(e) else LastOf(trace, t)
    ensures OwnEffects(trace + [e], t) == OwnEffects(trace, t) + if ByThread(e, t) then [e] else []
  {
    assert (trace + [e])[..|trace|] == trace;
  }

  lemma LegalGrows(trace: seq<Effect>, e: Effect)
    requires Legal(trace) && Allowed(trace, e)
    ensures Legal(trace + [e])
  {
    hide Allowed;
    var longer := trace + [e];
    forall i | 0 <= i < |longer|
      ensures Allowed(longer[..i], longer[i])
    {
      assert longer[..i] == trace[..i] && trace[..|trace|] == trace;
    }
  }

  /** A session's entry is `w` exactly when the last write to the session registered `w`. */
  lemma {:induction false} EntryIsLastRegistration(trace: seq<Effect>, n: nat, id: SessionId, w: Writer)
    requires n <= |trace|
    ensures Lookup(Replay(trace[..n]), id) == Some(w) <==>
              exists i: nat :: LastWrite(trace, n, i, id) && trace[i] == Put(id, w)
  {
    if n == 0 {
    } else {
      assert trace[..n][..n - 1] == trace[..n - 1];
      EntryIsLastRegistration(trace, n - 1, id, w);
      if Writes(trace, n - 1, id) {
        assert LastWrite(trace, n, n - 1, id);
        assert forall i: nat | LastWrite(trace, n, i, id) :: i == n - 1;
      } else {
        assert forall i: nat :: LastWrite(trace, n, i, id) <==> LastWrite(trace, n - 1, i, id);
      }
    }
  }

  /** A session is active exactly when the last write to it was a registration. */
  lemma ActiveIffRegistered(trace: seq<Effect>, id: SessionId)
    ensures id in Replay(trace) <==> exists i: nat :: LastWrite(trace, |trace|, i, id) && trace[i].Put?
  {
    hide Replay;
    assert trace[..|trace|] == trace;
    if id in Replay(trace) {
      EntryIsLastRegistration(trace, |trace|, id, Replay(trace)[id]);
    }
    if i: nat :| LastWrite(trace, |trace|, i, id) && trace[i].Put? {
      EntryIsLastRegistration(trace, |trace|, id, trace[i].writer);
    }
  }

  lemma {:induction false} EmptyIdNeverKey(trace: seq<Effect>)
    requires Legal(trace)
    ensures "" !in Replay(trace)
  {
    if trace == [] {
    } else {
      var before, e := trace[..|trace| - 1], trace[|trace| - 1];
      forall i | 0 <= i < |before|
        ensures Allowed(before[..i], before[i])
      {
        assert before[..i] == trace[..i];
      }
      EmptyIdNeverKey(before);
      assert Allowed(before, e);
    }
  }

  // ---- interleaved threads ----

  /** A piece of code that runs under the lock. */
  datatype Section =
    | PutSection(id: SessionId, writer: Writer)
    | DropSection(id: SessionId)
    | LookupSection(id: SessionId)
    | CleanupSection(id: SessionId, failed: Writer)

  /** Where a thread is: outside, waiting for the lock, holding it, or inside the writer call of a push. */
  datatype Place =
    | Outside
    | AtLock(section: Section)
    | InLock(section: Section)
    | Calling(id: SessionId, writer: Writer)

  datatype State = State(table: Table, lock: Option<Thread>, places: map<Thread, Place>, trace: seq<Effect>)

  datatype Step =
    | StartRegister(t: Thread, id: SessionId, writer: Writer)
    | StartUnregister(t: Thread, id: SessionId)
    | StartPush(t: Thread, id: SessionId)
    | Acquire(t: Thread)
    | RunAndRelease(t: Thread)
    | WriterReturns(t: Thread)
    | WriterRaises(t: Thread)

  const START := State(map[], None, map[], [])

  function PlaceOf(s: State, t: Thread): Place {
    if t in s.places then s.places[t] else Outside
  }

  function Moved(s: State, t: Thread, p: Place): State {
    s.(places := s.places[t := p])
  }

  ghost predicate Enabled(s: State, step: Step) {
    var p := PlaceOf(s, step.t);
    match step
    case StartRegister(_, _, _) => p.Outside?
    case StartUnregister(_, _) => p.Outside?
    case StartPush(_, _) => p.Outside?
    case Acquire(_) => p.AtLock? && s.lock.None?
    case RunAndRelease(t) => p.InLock? && s.lock == Some(t)
    case WriterReturns(_) => p.Calling?
    case WriterRaises(_) => p.Calling?
  }

  /** The dictionary operation of a section, and where the thread goes after releasing the lock. */
  function RunSection(s: State, t: Thread, section: Section): State {
    match section
    case PutSection(id, writer) =>
      Moved(s.(table := s.table[id := writer], trace := s.trace + [Put(id, writer)]), t, Outside)
    case DropSection(id) =>
      Moved(s.(table := s.table - {id}, trace := s.trace + [Removed(id)]), t, Outside)
    case LookupSection(id) =>
      var found := Lookup(s.table, id);
      Moved(s.(trace := s.trace + [Looked(t, id, found)]), t,
            match found case None => Outside case Some(writer) => Calling(id, writer))
    case CleanupSection(id, failed) =>
      Moved(s.(table := s.table - {id}, trace := s.trace + [CleanedUp(t, id, failed)]), t, Outside)
  }

  /** The writer call of thread `t` ends. */
  function Return(s: State, t: Thread, id: SessionId, writer: Writer, raised: bool): State {
    Moved(s.(trace := s.trace + [Called(t, id, writer, raised)]), t,
          if raised then AtLock(CleanupSection(id, writer)) else Outside)
  }

  function Next(s: State, step: Step): State {
    var p := PlaceOf(s, step.t);
    match step
    case StartRegister(t, id, writer) => if id == "" then s else Moved(s, t, AtLock(PutSection(id, writer)))
    case StartUnregister(t, id) => if id == "" then s else Moved(s, t, AtLock(DropSection(id)))
    case StartPush(t, id) => Moved(s, t, AtLock(LookupSection(id)))
    case Acquire(t) => if p.AtLock? then Moved(s, t, InLock(p.section)).(lock := Some(t)) else s
    case RunAndRelease(t) => if p.InLock? then RunSection(s, t, p.section).(lock := None) else s
    case WriterReturns(t) => if p.Calling? then Return(s, t, p.id, p.writer, false) else s
    case WriterRaises(t) => if p.Calling? then Return(s, t, p.id, p.writer, true) else s
  }

  ghost predicate IsRun(s: State, steps: seq<Step>)
    decreases |steps|
  {
    steps == [] || (Enabled(s, steps[0]) && IsRun(Next(s, steps[0]), steps[1..]))
  }

  function After(s: State, steps: seq<Step>): State
    decreases |steps|
  {
    if steps == [] then s else After(Next(s, steps[0]), steps[1..])
  }

  // ---- what every run keeps ----

  /** What a thread about to run a section did last. */
  ghost predicate SectionFits(t: Thread, section: Section, last: Option<Effect>) {
    match section
    case PutSection(id, _) => id != "" && BetweenPushes(last)
    case DropSection(id) => id != "" && BetweenPushes(last)
    case LookupSection(_) => BetweenPushes(last)
    case CleanupSection(id, failed) => last == Some(Called(t, id, failed, true))
  }

  /** Where a thread is agrees with what it did last. */
  ghost predicate PlaceFits(t: Thread, p: Place, last: Option<Effect>) {
    match p
    case Outside => BetweenPushes(last)
    case AtLock(section) => SectionFits(t, section, last)
    case InLock(section) => SectionFits(t, section, last)
    case Calling(id, writer) => last == Some(Looked(t, id, Some(writer)))
  }

  /** Exactly the holder of the lock is under it. */
  ghost predicate LockRespected(s: State) {
    forall t: Thread :: PlaceOf(s, t).InLock? <==> s.lock == Some(t)
  }

  ghost predicate PlacesFit(s: State) {
    forall t: Thread :: PlaceFits(t, PlaceOf(s, t), LastOf(s.trace, t))
  }

  ghost predicate Invariant(s: State) {
    s.table == Replay(s.trace) && Legal(s.trace) && LockRespected(s) && PlacesFit(s)
  }

  /** What a step of thread `t` with one effect does to everything else. */
  ghost predicate OneEffect(s: State, s': State, t: Thread, e: Effect) {
    && s'.trace == s.trace + [e] && s'.table == Applied(s.table, e)
    && (forall u: Thread | u != t :: PlaceOf(s', u) == PlaceOf(s, u) && !ByThread(e, u))
  }

  lemma EffectKeepsInvariant(s: State, s': State, t: Thread, e: Effect)
    requires Invariant(s) && OneEffect(s, s', t, e) && Allowed(s.trace, e) && LockRespected(s')
    requires PlaceFits(t, PlaceOf(s', t), if ByThread(e, t) then Some(e) else LastOf(s.trace, t))
    ensures Invariant(s')
  {
    hide PlaceFits, Allowed, Applied, Replay, LastOf, PlaceOf;
    LegalGrows(s.trace, e);
    forall u: Thread
      ensures PlaceFits(u, PlaceOf(s', u), LastOf(s'.trace, u)) && s'.table == Replay(s'.trace)
    {
      TraceGrows(s.trace, e, u);
    }
    TraceGrows(s.trace, e, t);
  }

  lemma SectionKeepsInvariant(s: State, t: Thread)
    requires Invariant(s) && Enabled(s, RunAndRelease(t))
    ensures Invariant(Next(s, RunAndRelease(t)))
  {
    hide Legal, Replay, LastOf;
    var s' := Next(s, RunAndRelease(t));
    var e := s'.trace[|s.trace|];
    assert PlaceFits(t, PlaceOf(s, t), LastOf(s.trace, t));
    EffectKeepsInvariant(s, s', t, e);
  }

  lemma CallKeepsInvariant(s: State, step: Step)
    requires Invariant(s) && Enabled(s, step) && (step.WriterReturns? || step.WriterRaises?)
    ensures Invariant(Next(s, step))
  {
    hide Legal, Replay, LastOf;
    var t := step.t;
    assert PlaceFits(t, PlaceOf(s, t), LastOf(s.trace, t));
    EffectKeepsInvariant(s, Next(s, step), t, Called(t, PlaceOf(s, t).id, PlaceOf(s, t).writer, step.WriterRaises?));
  }

  lemma StepKeepsInvariant(s: State, step: Step)
    requires Invariant(s) && Enabled(s, step)
    ensures Invariant(Next(s, step)) && s.trace <= Next(s, step).trace
  {
    if step.RunAndRelease? {
      SectionKeepsInvariant(s, step.t);
    } else if step.WriterReturns? || step.WriterRaises? {
      CallKeepsInvariant(s, step);
    } else {
      hide Legal, Replay, LastOf;
      var s' := Next(s, step);
      assert PlaceFits(step.t, PlaceOf(s, step.t), LastOf(s.trace, step.t));
      assert forall u: Thread | u != step.t :: PlaceOf(s', u) == PlaceOf(s, u);
    }
  }

  lemma {:induction false} RunKeepsInvariant(s: State, steps: seq<Step>)
    requires Invariant(s) && IsRun(s, steps)
    ensures Invariant(After(s, steps)) && s.trace <= After(s, steps).trace
    decreases |steps|
  {
    if steps == [] {
    } else {
      hide Invariant, Enabled, Next;
      StepKeepsInvariant(s, steps[0]);
      RunKeepsInvariant(Next(s, steps[0]), steps[1..]);
    }
  }

  lemma StartInvariant()
    ensures Invariant(START)
  {
  }

  /** Every interleaving is equivalent to the sequential execution of its effects in the order they took
      place, a failing push being a lookup, a call and a later removal: the table is the replayed one, every
      effect is one a sequential execution allows, the empty id is never a key, and a session's entry is `w`
      exactly when the last section that wrote the session registered `w`. */
  lemma EveryRunIsSequential(steps: seq<Step>)
    requires IsRun(START, steps)
    ensures var s := After(START, steps);
            && s.table == Replay(s.trace) && Legal(s.trace) && "" !in s.table
            && forall id, w: Writer :: Lookup(s.table, id) == Some(w) <==>
                 exists i: nat :: LastWrite(s.trace, |s.trace|, i, id) && s.trace[i] == Put(id, w)
  {
    hide Replay, Legal;
    StartInvariant();
    RunKeepsInvariant(START, steps);
    var s := After(START, steps);
    EmptyIdNeverKey(s.trace);
    assert s.trace[..|s.trace|] == s.trace;
    forall id, w: Writer
      ensures Lookup(s.table, id) == Some(w) <==>
                exists i: nat :: LastWrite(s.trace, |s.trace|, i, id) && s.trace[i] == Put(id, w)
    {
      EntryIsLastRegistration(s.trace, |s.trace|, id, w);
    }
  }

  /** At most one thread is ever under the lock, and no thread inside a writer call holds it. */
  lemma WritersRunUnlocked(steps: seq<Step>, t: Thread, u: Thread)
    requires IsRun(START, steps)
    ensures var s := After(START, steps);
            && (PlaceOf(s, t).InLock? && PlaceOf(s, u).InLock? ==> t == u)
            && (PlaceOf(s, t).Calling? ==> s.lock != Some(t))
  {
    StartInvariant();
    RunKeepsInvariant(START, steps);
  }

  // ---- the cleanup of a failed push ----

  /** Nothing of thread `t`'s pushes lies between effects `i` and `n`. */
  ghost predicate NextOwn(trace: seq<Effect>, i: nat, n: nat, t: Thread) {
    i < n <= |trace| && forall j | i < j < n :: !ByThread(trace[j], t)
  }

  lemma {:induction false} LastOfAt(trace: seq<Effect>, n: nat, t: Thread) returns (i: nat)
    requires n <= |trace| && LastOf(trace[..n], t).Some?
    ensures NextOwn(trace, i, n, t) && trace[i] == LastOf(trace[..n], t).value
  {
    if n == 0 {
    } else if ByThread(trace[n - 1], t) {
      i := n - 1;
    } else {
      assert trace[..n][..n - 1] == trace[..n - 1];
      i := LastOfAt(trace, n - 1, t);
    }
  }

  /** Session `id` was registered after effect `l`, to another writer than `w`, and not written since. */
  ghost predicate Reregistered(trace: seq<Effect>, l: nat, n: nat, id: SessionId, w: Writer) {
    exists i: nat :: l < i && LastWrite(trace, n, i, id) && trace[i].Put? && trace[i].writer != w
  }

  /** A cleanup follows its thread's own failed call, and that its own lookup, which found the writer. */
  lemma CleanupFollows(trace: seq<Effect>, n: nat) returns (looked: nat, called: nat)
    requires Legal(trace) && n < |trace| && trace[n].CleanedUp?
    ensures var t, id, failed := trace[n].thread, trace[n].id, trace[n].failed;
            && NextOwn(trace, looked, called, t) && trace[looked] == Looked(t, id, Some(failed))
            && NextOwn(trace, called, n, t) && trace[called] == Called(t, id, failed, true)
            && Lookup(Replay(trace[..looked]), id) == Some(failed)
  {
    hide Replay, LastOf;
    assert Allowed(trace[..n], trace[n]);
    called := LastOfAt(trace, n, trace[n].thread);
    assert Allowed(trace[..called], trace[called]);
    looked := LastOfAt(trace, called, trace[n].thread);
    assert Allowed(trace[..looked], trace[looked]);
  }

  /** Exactly when a failed push's cleanup throws out a writer other than the one that failed: when the
      session was registered again, to another writer, after that push's lookup, and not written since. The
      lookup and the failed call are the cleaning thread's own last two effects. */
  lemma CleanupHitsOtherWriter(steps: seq<Step>, n: nat, t: Thread, id: SessionId, failed: Writer)
    returns (looked: nat, called: nat)
    requires IsRun(START, steps)
    requires var trace := After(START, steps).trace; n < |trace| && trace[n] == CleanedUp(t, id, failed)
    ensures var trace := After(START, steps).trace;
            && NextOwn(trace, looked, called, t) && trace[looked] == Looked(t, id, Some(failed))
            && NextOwn(trace, called, n, t) && trace[called] == Called(t, id, failed, true)
    ensures var trace := After(START, steps).trace;
            var table := Replay(trace[..n]);
            && (id in table && table[id] != failed <==> Reregistered(trace, looked, n, id, failed))
            && id !in Replay(trace[..n + 1])
  {
    hide Replay, IsRun, After, Legal, Reregistered;
    EveryRunIsSequential(steps);
    var trace := After(START, steps).trace;
    looked, called := CleanupFollows(trace, n);
    assert trace[..n + 1] == trace[..n] + [trace[n]];
    TraceGrows(trace[..n], trace[n], t);
    OtherIffReregistered(trace, looked, n, id, failed);
  }

  /** An entry other than the one a lookup found was registered since. */
  lemma OtherIffReregistered(trace: seq<Effect>, l: nat, n: nat, id: SessionId, found: Writer)
    requires l < n <= |trace| && trace[l].Looked? && Lookup(Replay(trace[..l]), id) == Some(found)
    ensures var table := Replay(trace[..n]);
            id in table && table[id] != found <==> Reregistered(trace, l, n, id, found)
  {
    hide Replay;
    var table := Replay(trace[..n]);
    if id in table && table[id] != found {
      var w := table[id];
      EntryIsLastRegistration(trace, n, id, w);
      var i: nat :| LastWrite(trace, n, i, id) && trace[i] == Put(id, w);
      if i < l {
        assert LastWrite(trace, l, i, id);
        EntryIsLastRegistration(trace, l, id, w);
      }
    }
    if i: nat :| l < i && LastWrite(trace, n, i, id) && trace[i].Put? && trace[i].writer != found {
      EntryIsLastRegistration(trace, n, id, trace[i].writer);
    }
  }

  // ---- runs step by step ----

  lemma {:induction false} RunInParts(s: State, first: seq<Step>, second: seq<Step>)
    requires IsRun(s, first) && IsRun(After(s, first), second)
    ensures IsRun(s, first + second) && After(s, first + second) == After(After(s, first), second)
    decreases |first|
  {
    if first == [] {
      assert first + second == second;
    } else {
      RunInParts(Next(s, first[0]), first[1..], second);
      assert (first + second)[1..] == first[1..] + second;
    }
  }

  lemma TwoSteps(s: State, a: Step, b: Step)
    requires Enabled(s, a) && Enabled(Next(s, a), b)
    ensures IsRun(s, [a, b]) && After(s, [a, b]) == Next(Next(s, a), b)
  {
    OneStep(s, a);
    OneStep(Next(s, a), b);
    RunInParts(s, [a], [b]);
    assert [a] + [b] == [a, b];
  }

  lemma OneStep(s: State, a: Step)
    requires Enabled(s, a)
    ensures IsRun(s, [a]) && After(s, [a]) == Next(s, a)
  {
    assert [a][1..] == [];
  }

  /** A section from start to end, nobody in between. */
  function Through(start: Step): seq<Step> {
    [start, Acquire(start.t)] + [RunAndRelease(start.t)]
  }

  lemma SectionThrough(s: State, start: Step, section: Section)
    requires PlaceOf(s, start.t).Outside? && s.lock.None?
    requires start.StartRegister? || start.StartUnregister? || start.StartPush?
    requires Next(s, start) == Moved(s, start.t, AtLock(section))
    ensures IsRun(s, Through(start))
    ensures After(s, Through(start)) == RunSection(s, start.t, section)
  {
    hide RunSection;
    var t := start.t;
    TwoSteps(s, start, Acquire(t));
    var s2 := Next(Next(s, start), Acquire(t));
    assert s2 == s.(places := s.places[t := InLock(section)], lock := Some(t));
    OneStep(s2, RunAndRelease(t));
    RunInParts(s, [start, Acquire(t)], [RunAndRelease(t)]);
    SectionRuns(s, s2, t, section);
  }

  lemma SectionRuns(s: State, s2: State, t: Thread, section: Section)
    requires s2 == s.(places := s.places[t := InLock(section)], lock := Some(t)) && s.lock.None?
    ensures RunSection(s2, t, section).(lock := None) == RunSection(s, t, section)
  {
    forall p: Place
      ensures Moved(s2, t, p).places == Moved(s, t, p).places
    {
    }
  }

  // ---- the runs are the legal traces ----

  /** Where a thread waits that did `last` last and has not been scheduled since. */
  function RestPlace(last: Option<Effect>): Place {
    match last
    case Some(Looked(_, id, Some(writer))) => Calling(id, writer)
    case Some(Called(_, id, writer, true)) => AtLock(CleanupSection(id, writer))
    case _ => Outside
  }

  /** A state with this trace in which nobody is under way further than the trace says. */
  ghost predicate Resting(s: State, trace: seq<Effect>) {
    && s.trace == trace && s.table == Replay(trace) && s.lock.None?
    && forall t: Thread :: PlaceOf(s, t) == RestPlace(LastOf(trace, t))
  }

  /** A thread that has not pushed yet. */
  lemma {:induction false} FreshThread(trace: seq<Effect>) returns (t: Thread)
    ensures forall u: Thread | t <= u :: LastOf(trace, u) == None
  {
    if trace == [] {
      t := 0;
    } else {
      var e := trace[|trace| - 1];
      t := FreshThread(trace[..|trace| - 1]);
      if (e.Looked? || e.Called? || e.CleanedUp?) && e.thread >= t {
        t := e.thread + 1;
      }
    }
  }

  lemma RestsAgain(s: State, s': State, trace: seq<Effect>, e: Effect, t: Thread)
    requires Resting(s, trace) && s'.trace == trace + [e] && s'.table == Applied(s.table, e) && s'.lock.None?
    requires forall u: Thread | u != t :: PlaceOf(s', u) == PlaceOf(s, u) && !ByThread(e, u)
    requires PlaceOf(s', t) == RestPlace(if ByThread(e, t) then Some(e) else LastOf(trace, t))
    ensures Resting(s', trace + [e])
  {
    hide Replay, LastOf, Applied, RestPlace;
    forall u: Thread
      ensures PlaceOf(s', u) == RestPlace(LastOf(trace + [e], u)) && s'.table == Replay(trace + [e])
    {
      TraceGrows(trace, e, u);
    }
    TraceGrows(trace, e, t);
  }

  /** From a resting state the steps that bring about an allowed effect. */
  lemma Realise(s: State, trace: seq<Effect>, e: Effect) returns (more: seq<Step>)
    requires Resting(s, trace) && Allowed(trace, e)
    ensures IsRun(s, more) && Resting(After(s, more), trace + [e])
  {
    hide IsRun, After, Resting, Allowed, Replay, LastOf;
    match e
    case Put(id, writer) =>
      var t := FreshThread(trace);
      more := RealiseSection(s, trace, e, StartRegister(t, id, writer), PutSection(id, writer));
    case Removed(id) =>
      var t := FreshThread(trace);
      more := RealiseSection(s, trace, e, StartUnregister(t, id), DropSection(id));
    case Looked(t, id, found) =>
      more := RealiseSection(s, trace, e, StartPush(t, id), LookupSection(id));
    case Called(t, id, writer, raised) =>
      more := RealiseCall(s, trace, e);
    case CleanedUp(t, id, failed) =>
      more := RealiseCleanup(s, trace, e);
  }

  lemma RealiseSection(s: State, trace: seq<Effect>, e: Effect, start: Step, section: Section) returns (more: seq<Step>)
    requires Resting(s, trace) && Allowed(trace, e)
    requires match e
             case Put(id, writer) => start == StartRegister(start.t, id, writer) && section == PutSection(id, writer)
             case Removed(id) => start == StartUnregister(start.t, id) && section == DropSection(id)
             case Looked(t, id, _) => start == StartPush(t, id) && section == LookupSection(id)
             case _ => false
    requires !e.Looked? ==> LastOf(trace, start.t) == None
    ensures IsRun(s, more) && Resting(After(s, more), trace + [e])
  {
    hide IsRun, After, Replay, LastOf;
    var t := start.t;
    assert PlaceOf(s, t) == RestPlace(LastOf(trace, t));
    SectionThrough(s, start, section);
    more := Through(start);
    var s' := After(s, more);
    assert forall u: Thread | u != t :: PlaceOf(s', u) == PlaceOf(s, u);
    RestsAgain(s, s', trace, e, t);
  }

  lemma RealiseCall(s: State, trace: seq<Effect>, e: Effect) returns (more: seq<Step>)
    requires Resting(s, trace) && Allowed(trace, e) && e.Called?
    ensures IsRun(s, more) && Resting(After(s, more), trace + [e])
  {
    hide IsRun, After, Replay, LastOf;
    var t := e.thread;
    assert PlaceOf(s, t) == RestPlace(LastOf(trace, t));
    var step := if e.raised then WriterRaises(t) else WriterReturns(t);
    OneStep(s, step);
    more := [step];
    RestsAgain(s, After(s, more), trace, e, t);
  }

  lemma RealiseCleanup(s: State, trace: seq<Effect>, e: Effect) returns (more: seq<Step>)
    requires Resting(s, trace) && Allowed(trace, e) && e.CleanedUp?
    ensures IsRun(s, more) && Resting(After(s, more), trace + [e])
  {
    hide IsRun, After, Replay, LastOf;
    var t := e.thread;
    assert PlaceOf(s, t) == RestPlace(LastOf(trace, t));
    TwoSteps(s, Acquire(t), RunAndRelease(t));
    more := [Acquire(t), RunAndRelease(t)];
    RestsAgain(s, After(s, more), trace, e, t);
  }

  lemma LegalPart(trace: seq<Effect>, n: nat)
    requires Legal(trace) && n <= |trace|
    ensures Legal(trace[..n])
  {
    hide Allowed;
    forall i | 0 <= i < n
      ensures Allowed(trace[..n][..i], trace[..n][i])
    {
      assert trace[..n][..i] == trace[..i];
    }
  }

  lemma {:induction false} LegalIsRun(trace: seq<Effect>) returns (steps: seq<Step>)
    requires Legal(trace)
    ensures IsRun(START, steps) && Resting(After(START, steps), trace)
  {
    hide Allowed;
    if trace == [] {
      steps := [];
    } else {
      hide IsRun, After, Resting;
      var n := |trace| - 1;
      LegalPart(trace, n);
      var first := LegalIsRun(trace[..n]);
      assert Allowed(trace[..n], trace[n]);
      var second := Realise(After(START, first), trace[..n], trace[n]);
      RunInParts(START, first, second);
      steps := first + second;
      assert trace == trace[..n] + [trace[n]];
    }
  }

  /** The interleavings have exactly the legal traces: nothing else ever happens, and each of them does. */
  lemma RunsAreLegalTraces(trace: seq<Effect>)
    ensures Legal(trace) <==> exists steps :: IsRun(START, steps) && After(START, steps).trace == trace
  {
    if Legal(trace) {
      var steps := LegalIsRun(trace);
    }
    if steps :| IsRun(START, steps) && After(START, steps).trace == trace {
      EveryRunIsSequential(steps);
    }
  }

  /** A reconnect between a push's failing call and its cleanup loses the new connection: the session was
      registered to `live` last but one, yet it ends up without an entry. */
  lemma ReconnectLost(id: SessionId, dead: Writer, live: Writer) returns (steps: seq<Step>)
    requires id != "" && dead != live
    ensures IsRun(START, steps) && id !in After(START, steps).table
    ensures After(START, steps).trace
         == [Put(id, dead), Looked(1, id, Some(dead)), Called(1, id, dead, true), Put(id, live), CleanedUp(1, id, dead)]
  {
    var effects :=
      [Put(id, dead), Looked(1, id, Some(dead)), Called(1, id, dead, true), Put(id, live), CleanedUp(1, id, dead)];
    forall i | 0 <= i < 5
      ensures Allowed(effects[..i], effects[i])
    {
      FiveEffects(effects);
    }
    steps := LegalIsRun(effects);
    FiveEffects(effects);
  }

  lemma FiveEffects(es: seq<Effect>)
    requires |es| == 5
    ensures es[..1] == [es[0]] && es[..2] == [es[0]] + [es[1]] && es[..3] == es[..2] + [es[2]]
    ensures es[..4] == es[..3] + [es[3]] && es == es[..4] + [es[4]]
  {
  }

  // ---- the object ----

  /** What one push does itself, whatever happens in between. */
  function PushEffects(t: Thread, id: SessionId, called: Option<Writer>, raised: bool): seq<Effect> {
    match called
    case None => [Looked(t, id, None)]
    case Some(writer) =>
      [Looked(t, id, called), Called(t, id, writer, raised)] + if raised then [CleanedUp(t, id, writer)] else []
  }

  /** Undisturbed, a push leaves the table as it is, or without the session if the call raised. */
  lemma PushReplays(before: seq<Effect>, t: Thread, id: SessionId, called: Option<Writer>, raised: bool)
    ensures Replay(before + PushEffects(t, id, called, raised))
         == if called.Some? && raised then Replay(before) - {id} else Replay(before)
  {
    hide Replay, LastOf, OwnEffects;
    var look := Looked(t, id, called);
    TraceGrows(before, look, t);
    if called.Some? {
      var call, clean := Called(t, id, called.value, raised), CleanedUp(t, id, called.value);
      TraceGrows(before + [look], call, t);
      TraceGrows(before + [look] + [call], clean, t);
      AddedInTurn(before, look, call, clean);
    }
  }

  lemma AddedInTurn<T>(s: seq<T>, a: T, b: T, c: T)
    ensures s + ([a, b] + []) == s + [a] + [b] && s + ([a, b] + [c]) == s + [a] + [b] + [c]
  {
  }

  /** `e` as an effect of another thread than `t`, when it is one that can happen now. */
  ghost predicate ByOther(trace: seq<Effect>, e: Effect, t: Thread) {
    Allowed(trace, e) && !ByThread(e, t)
  }

  class ConnectionRegistry {
    var writers: Table
    ghost var trace: seq<Effect>

    /** The table is what the effects so far left, and they are those of some interleaving. */
    ghost predicate Valid()
      reads this
    {
      writers == Replay(trace) && Legal(trace)
    }

    constructor ()
      ensures Valid() && trace == []
    {
      writers, trace := map[], [];
    }

    method Register(id: SessionId, writer: Writer)
      requires Valid()
      modifies this
      ensures Valid() && trace == old(trace) + if id == "" then [] else [Put(id, writer)]
    {
      if id == "" {
        return;
      }
      LegalGrows(trace, Put(id, writer));
      TraceGrows(trace, Put(id, writer), 0);
      writers, trace := writers[id := writer], trace + [Put(id, writer)];
    }

    method Unregister(id: SessionId)
      requires Valid()
      modifies this
      ensures Valid() && trace == old(trace) + if id == "" then [] else [Removed(id)]
    {
      if id == "" {
        return;
      }
      LegalGrows(trace, Removed(id));
      TraceGrows(trace, Removed(id), 0);
      writers, trace := writers - {id}, trace + [Removed(id)];
    }

    /** One effect, already applied to the table, is added to the history. */
    ghost method Record(e: Effect, t: Thread)
      requires Legal(trace) && Allowed(trace, e) && writers == Applied(Replay(trace), e)
      modifies this`trace
      ensures Valid() && trace == old(trace) + [e]
      ensures LastOf(trace, t) == if ByThread(e, t) then Some(e) else old(LastOf(trace, t))
      ensures OwnEffects(trace, t) == old(OwnEffects(trace, t)) + if ByThread(e, t) then [e] else []
    {
      LegalGrows(trace, e);
      TraceGrows(trace, e, t);
      trace := trace + [e];
    }

    /** Any number of effects of other threads than `t`: they register, unregister, look up, call writers
        that return or raise, and clean up. */
    method Others(ghost t: Thread)
      requires Valid()
      modifies this
      ensures Valid() && old(trace) <= trace
      ensures LastOf(trace, t) == old(LastOf(trace, t)) && OwnEffects(trace, t) == old(OwnEffects(trace, t))
    {
      hide Legal, Allowed, Replay, LastOf, OwnEffects;
      var turns: nat := *;
      while turns > 0
        invariant Valid() && old(trace) <= trace
        invariant LastOf(trace, t) == old(LastOf(trace, t)) && OwnEffects(trace, t) == old(OwnEffects(trace, t))
      {
        Other(t);
        turns := turns - 1;
      }
    }

    method Other(ghost t: Thread)
      requires Valid()
      modifies this
      ensures Valid() && old(trace) <= trace
      ensures LastOf(trace, t) == old(LastOf(trace, t)) && OwnEffects(trace, t) == old(OwnEffects(trace, t))
    {
      hide Legal, Replay, LastOf, OwnEffects;
      var id: SessionId, writer: Writer, kind: nat := *, *, *;
      ghost var look: Effect := *;
      if kind == 0 && id != "" {
        writers := writers[id := writer];
        Record(Put(id, writer), t);
      } else if kind == 1 && id != "" {
        writers := writers - {id};
        Record(if ByOther(trace, look, t) && look.CleanedUp? && look.id == id then look else Removed(id), t);
      } else if ByOther(trace, look, t) && (look.Looked? || look.Called?) {
        Record(look, t);
      }
      assert OwnEffects(old(trace), t) + [] == OwnEffects(old(trace), t);
    }

    /** `push` by thread `t`: others may do anything while the writer runs and before the lock is taken again
        for the cleanup. Its own effects are its lookup, the call of the writer it found, and the cleanup if
        the call raised. */
    method Push(ghost t: Thread, id: SessionId) returns (delivered: bool, called: Option<Writer>)
      requires Valid() && BetweenPushes(LastOf(trace, t))
      modifies this
      ensures Valid() && BetweenPushes(LastOf(trace, t)) && old(trace) <= trace
      ensures called == Lookup(old(writers), id) && (delivered ==> called.Some?)
      ensures OwnEffects(trace, t) == old(OwnEffects(trace, t)) + PushEffects(t, id, called, !delivered)
      ensures trace == old(trace) + PushEffects(t, id, called, !delivered) ==>
                writers == if called.Some? && !delivered then old(writers) - {id} else old(writers)
    {
      hide Legal, Replay, LastOf, OwnEffects;
      called := Lookup(writers, id);
      Record(Looked(t, id, called), t);
      if called.None? {
        return false, None;
      }
      var writer := called.value;
      Others(t);
      var raised: bool := *;
      PushReplays(old(trace), t, id, called, raised);
      Record(Called(t, id, writer, raised), t);
      if !raised {
        return true, called;
      }
      Others(t);
      writers := writers - {id};
      Record(CleanedUp(t, id, writer), t);
      delivered := false;
    }

    method ActiveSessions() returns (ids: set<SessionId>)
      requires Valid()
      ensures forall id :: id in ids <==> exists i: nat :: LastWrite(trace, |trace|, i, id) && trace[i].Put?
    {
      ids := writers.Keys;
      forall id
        ensures id in ids <==> exists i: nat :: LastWrite(trace, |trace|, i, id) && trace[i].Put?
      {
        ActiveIffRegistered(trace, id);
      }
    }
  }
}
