/** The tenant session cap when admissions and removals interleave at every atomic load,
    add, subtract and table access of one tenant's counter. Each thread carries one session
    with a key of its own. */
module TenantCap {
  import opened Multimaps

  /** Where a thread stands: after the load of `try_insert`, after its `fetch_add`, after a
      failed recheck, after a passed one, in the session table, out of it again. */
  datatype Phase = Loaded | Bumped | Backing | Passed | Registered | Removed | Done

  datatype State = State(counter: nat, threads: map<nat, Phase>)

  const INIT := State(0, map[])

  /** Thread `i` takes its next atomic step. */
  function Step(st: State, max: nat, i: nat): State {
    if i !in st.threads then
      st.(threads := st.threads[i := if max > 0 && st.counter >= max then Done else Loaded])
    else match st.threads[i]
      case Loaded => State(st.counter + 1, st.threads[i := Bumped])
      case Bumped => st.(threads := st.threads[i := if max > 0 && st.counter > max then Backing else Passed])
      case Backing => State(Decr(st.counter), st.threads[i := Done])
      case Passed => st.(threads := st.threads[i := Registered])
      case Registered => st.(threads := st.threads[i := Removed])
      case Removed => State(Decr(st.counter), st.threads[i := Done])
      case Done => st
  }

  function Run(st: State, max: nat, schedule: seq<nat>): State
    decreases |schedule|
  {
    if |schedule| == 0 then st else Run(Step(st, max, schedule[0]), max, schedule[1..])
  }

  function In(threads: map<nat, Phase>, phases: set<Phase>): set<nat> {
    set i | i in threads && threads[i] in phases
  }

  function Count(threads: map<nat, Phase>, phases: set<Phase>): nat {
    |In(threads, phases)|
  }

  const TENTATIVE := {Bumped, Backing}

  /** The counter is the number of sessions registered, passed, tentative, or removed and not
      yet subtracted; sessions admitted never exceed a positive cap. */
  ghost predicate Inv(st: State, max: nat) {
    && st.counter == Count(st.threads, {Registered}) + Count(st.threads, {Passed})
                   + Count(st.threads, TENTATIVE) + Count(st.threads, {Removed})
    && (max > 0 ==> Count(st.threads, {Registered}) + Count(st.threads, {Passed}) <= max)
  }

  lemma CountAfter(threads: map<nat, Phase>, i: nat, p: Phase, phases: set<Phase>)
    ensures Count(threads[i := p], phases) == Count(threads, phases)
         - (if i in threads && threads[i] in phases then 1 else 0)
         + (if p in phases then 1 else 0)
    ensures i in threads && threads[i] in phases ==> Count(threads, phases) >= 1
  {
    var others := In(threads, phases) - {i};
    CardRemove(In(threads, phases), i);
    CardAdd(others, i);
    assert In(threads[i := p], phases) == if p in phases then others + {i} else others;
    assert i in threads && threads[i] in phases ==> i in In(threads, phases);
  }

  lemma StepKeepsInv(st: State, max: nat, i: nat)
    requires Inv(st, max)
    ensures Inv(Step(st, max, i), max)
  {
    hide Count;
    var next := Step(st, max, i);
    if i !in st.threads || st.threads[i] != Done {
      var p := next.threads[i];
      CountAfter(st.threads, i, p, {Registered});
      CountAfter(st.threads, i, p, {Passed});
      CountAfter(st.threads, i, p, TENTATIVE);
      CountAfter(st.threads, i, p, {Removed});
    }
  }

  lemma {:induction false} RunKeepsInv(st: State, max: nat, schedule: seq<nat>)
    requires Inv(st, max)
    ensures Inv(Run(st, max, schedule), max)
    decreases |schedule|
  {
    hide Inv, Step;
    if schedule != [] {
      StepKeepsInv(st, max, schedule[0]);
      RunKeepsInv(Step(st, max, schedule[0]), max, schedule[1..]);
    }
  }

  /** Under every interleaving: the counter's exact meaning, the cap on admitted sessions,
      and a bound on how far the counter itself may overshoot. */
  lemma CapHolds(max: nat, schedule: seq<nat>)
    ensures var st := Run(INIT, max, schedule);
            && st.counter == Count(st.threads, {Registered}) + Count(st.threads, {Passed})
                           + Count(st.threads, TENTATIVE) + Count(st.threads, {Removed})
            && (max > 0 ==> Count(st.threads, {Registered}) + Count(st.threads, {Passed}) <= max)
            && (max > 0 ==> st.counter <= max + Count(st.threads, TENTATIVE) + Count(st.threads, {Removed}))
  {
    hide Run, Count;
    assert Inv(INIT, max) by { InitInv(max); }
    RunKeepsInv(INIT, max, schedule);
  }

  lemma InitInv(max: nat)
    ensures Inv(INIT, max)
  {
    assert forall phases :: In(INIT.threads, phases) == {};
  }

  /** No subtraction of any schedule meets a zero counter. */
  lemma SubtractionsNeverWrap(max: nat, schedule: seq<nat>, i: nat)
    ensures var st := Run(INIT, max, schedule);
            i in st.threads && st.threads[i] in {Backing, Removed} ==> st.counter >= 1
  {
    hide Run;
    var st := Run(INIT, max, schedule);
    CapHolds(max, schedule);
    CountAfter(st.threads, i, Done, TENTATIVE);
    CountAfter(st.threads, i, Done, {Removed});
  }

  /** The counter does overshoot: two threads under a cap of 1 both load before either adds;
      going on the same way, both then back out. */
  lemma CounterMayOvershoot()
    ensures var st := Run(INIT, 1, [0, 1, 0, 1]);
            && st.counter == 2
            && Run(st, 1, [0, 1, 0, 1]) == State(0, map[0 := Done, 1 := Done])
  {
    RunFour(INIT, 1, 0, 1, 0, 1);
    var st := Run(INIT, 1, [0, 1, 0, 1]);
    assert st == State(2, map[0 := Bumped, 1 := Bumped]);
    RunFour(st, 1, 0, 1, 0, 1);
  }

  lemma RunFour(st: State, max: nat, a: nat, b: nat, c: nat, d: nat)
    ensures Run(st, max, [a, b, c, d]) == Step(Step(Step(Step(st, max, a), max, b), max, c), max, d)
  {
    hide Step, Run;
    var s1 := Step(st, max, a);
    var s2 := Step(s1, max, b);
    var s3 := Step(s2, max, c);
    RunOne(st, max, [a, b, c, d]);
    RunOne(s1, max, [b, c, d]);
    RunOne(s2, max, [c, d]);
    RunOne(s3, max, [d]);
    assert [a, b, c, d][1..] == [b, c, d] && [b, c, d][1..] == [c, d] && [c, d][1..] == [d] && [d][1..] == [];
    assert Run(Step(s3, max, d), max, []) == Step(s3, max, d) by { RunNone(Step(s3, max, d), max); }
  }

  lemma RunOne(st: State, max: nat, schedule: seq<nat>)
    requires schedule != []
    ensures Run(st, max, schedule) == Run(Step(st, max, schedule[0]), max, schedule[1..])
  {
  }

  lemma RunNone(st: State, max: nat)
    ensures Run(st, max, []) == st
  {
  }

  // ---- nobody is refused without need ----

  /** The phases that the counter counts. */
  const COUNTED := {Bumped, Backing, Passed, Registered, Removed}

  /** Only these threads, each counted once, and nobody backing out. */
  ghost predicate Roomy(st: State, ids: set<nat>) {
    && st.threads.Keys <= ids
    && st.counter == Count(st.threads, COUNTED)
    && forall j :: j in st.threads ==> st.threads[j] != Backing
  }

  /** The thread's next step does not turn it away: neither its load nor its recheck fails. */
  predicate Welcome(st: State, max: nat, i: nat) {
    var next := Step(st, max, i);
    && i in next.threads
    && (i !in st.threads ==> next.threads[i] == Loaded)
    && (i in st.threads && st.threads[i] == Bumped ==> next.threads[i] == Passed)
  }

  lemma StepRoomy(st: State, max: nat, i: nat, ids: set<nat>)
    requires Roomy(st, ids) && i in ids && (max == 0 || |ids| <= max)
    ensures Roomy(Step(st, max, i), ids) && Welcome(st, max, i)
  {
    hide Count;
    CountedWithin(st.threads, ids, i);
    var next := Step(st, max, i);
    if i !in st.threads || st.threads[i] != Done { CountAfter(st.threads, i, next.threads[i], COUNTED); }
  }

  lemma CountedWithin(threads: map<nat, Phase>, ids: set<nat>, i: nat)
    requires threads.Keys <= ids && i in ids
    ensures Count(threads, COUNTED) <= |ids|
    ensures i !in threads ==> Count(threads, COUNTED) < |ids|
  {
    CardSubset(In(threads, COUNTED), ids);
    CardRemove(ids, i);
    if i !in threads { CardSubset(In(threads, COUNTED), ids - {i}); }
  }

  lemma {:induction false} RunRoomy(st: State, max: nat, schedule: seq<nat>, ids: set<nat>)
    requires Roomy(st, ids) && (max == 0 || |ids| <= max) && forall k :: k in schedule ==> k in ids
    ensures Roomy(Run(st, max, schedule), ids)
    decreases |schedule|
  {
    hide Roomy, Step, Welcome;
    if schedule != [] {
      StepRoomy(st, max, schedule[0], ids);
      RunRoomy(Step(st, max, schedule[0]), max, schedule[1..], ids);
    }
  }

  /** As long as no more threads come than the cap allows, none is turned away, at any point of
      any interleaving: every load and every recheck lets its thread on. */
  lemma NobodyRefused(max: nat, schedule: seq<nat>, ids: set<nat>, i: nat)
    requires (max == 0 || |ids| <= max) && i in ids && forall k :: k in schedule ==> k in ids
    ensures Welcome(Run(INIT, max, schedule), max, i)
    ensures forall j :: j in Run(INIT, max, schedule).threads ==> Run(INIT, max, schedule).threads[j] != Backing
  {
    hide Run, Count, Welcome;
    EmptyCount();
    RunRoomy(INIT, max, schedule, ids);
    StepRoomy(Run(INIT, max, schedule), max, i, ids);
  }

  lemma EmptyCount()
    ensures Count(INIT.threads, COUNTED) == 0
  {
    assert In(INIT.threads, COUNTED) == {};
  }

  /** A thread that is let on registers with its next steps, one for each phase. */
  lemma WelcomeRegisters(st: State, max: nat, i: nat)
    requires i in st.threads
    ensures st.threads[i] == Loaded ==> Step(st, max, i).threads[i] == Bumped
    ensures st.threads[i] == Passed ==> Step(st, max, i).threads[i] == Registered
  {
  }
}
