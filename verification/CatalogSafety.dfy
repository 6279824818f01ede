/** What holds of the schema cache under every interleaving, server exceptions and retries included. */
module CatalogSafety {
  import opened Wrappers
  import opened Catalog

  // ----- mutexes -----

  predicate FollowsLock(held: bool, op: LockOp, holds: bool) {
    match op
    case Keep => holds == held
    case Take => !held && holds
    case Release => held && !holds
  }

  /** A thread takes a mutex only without it, releases it only with it, and is where it should be then. */
  lemma LocalLocks(eagerSchema: bool, m: Memory, pc: Pc, act: Act)
    requires Local(eagerSchema, m, pc, act).Some?
    ensures var e := Local(eagerSchema, m, pc, act).value;
            && FollowsLock(HoldsSchema(pc), e.schema, HoldsSchema(e.pc))
            && FollowsLock(HoldsEager(pc), e.eager, HoldsEager(e.pc))
  {
    hide Key;
  }

  lemma StepKeepsLocks(s: State, t: Thread, act: Act)
    requires Locks(s) && Step(s, t, act).Some?
    ensures Locks(Step(s, t, act).value)
  {
    hide Local, HoldsSchema, HoldsEager;
    LocalLocks(s.eagerSchema, s.memory, s.pcs[t], act);
  }

  // ----- memory -----

  /** Only the owner of schema_mutex_ writes. */
  lemma WritersHoldSchema(eagerSchema: bool, m: Memory, pc: Pc, act: Act)
    requires Local(eagerSchema, m, pc, act).Some? && !HoldsSchema(pc)
    ensures Local(eagerSchema, m, pc, act).value.memory == m
  {
    hide Key;
  }

  lemma LocalGrows(eagerSchema: bool, m: Memory, pc: Pc, act: Act)
    requires Relies(m, pc) && Local(eagerSchema, m, pc, act).Some?
    ensures Grows(m, Local(eagerSchema, m, pc, act).value.memory)
  {
    hide Key, SettledUpTo, Turn;
  }

  lemma LocalRelies(eagerSchema: bool, m: Memory, pc: Pc, act: Act)
    requires Relies(m, pc) && Local(eagerSchema, m, pc, act).Some?
    ensures var e := Local(eagerSchema, m, pc, act).value; Relies(e.memory, e.pc)
  {
    hide Key;
  }

  lemma LocalCached(eagerSchema: bool, m: Memory, pc: Pc, act: Act)
    requires Relies(m, pc) && Cached(m) && Local(eagerSchema, m, pc, act).Some?
    ensures Cached(Local(eagerSchema, m, pc, act).value.memory)
  {
    hide Key;
  }

  lemma OneMoreEntry(entries: map<string, Entry>, scans: map<string, Entry>, nextId: nat, key: string, full: bool)
    requires Distinct(entries, scans, nextId)
    ensures Distinct(entries[key := Entry(nextId, full)], scans, nextId + 1)
    ensures Distinct(entries, scans[key := Entry(nextId, full)], nextId + 1)
  {
  }

  lemma LocalDistinct(eagerSchema: bool, m: Memory, pc: Pc, act: Act)
    requires Distinct(m.entries, m.scanEntries, m.nextId) && Local(eagerSchema, m, pc, act).Some?
    ensures var m' := Local(eagerSchema, m, pc, act).value.memory; Distinct(m'.entries, m'.scanEntries, m'.nextId)
  {
    hide Key, Distinct;
    if pc.EntryProbe? {
      OneMoreEntry(m.entries, m.scanEntries, m.nextId, Key(pc.name), true);
    } else if pc.ScanLocked? {
      OneMoreEntry(m.entries, m.scanEntries, m.nextId, Key(pc.name), false);
    }
  }

  /** What a step tells its caller: the cached state, and never less than the full entry of a key that has one. */
  predicate Truthful(m: Memory, m': Memory, e: Event) {
    Honoured(m', e) && (e.Served? && Key(e.name) in m.entries ==> e.entry == Some(m.entries[Key(e.name)]))
  }

  lemma LocalTells(eagerSchema: bool, m: Memory, pc: Pc, act: Act)
    requires Relies(m, pc) && Cached(m) && Local(eagerSchema, m, pc, act).Some?
    ensures var m' := Local(eagerSchema, m, pc, act).value.memory;
            m'.log == m.log || (|m'.log| == |m.log| + 1 && m'.log[..|m.log|] == m.log && Truthful(m, m', m'.log[|m.log|]))
  {
    hide Key, SettledUpTo, Turn;
  }

  lemma LogKept(m: Memory, m': Memory)
    requires Logged(m) && Grows(m, m')
    requires m'.log == m.log || (|m'.log| == |m.log| + 1 && m'.log[..|m.log|] == m.log && Truthful(m, m', m'.log[|m.log|]))
    ensures Logged(m')
  {
    forall i | 0 <= i < |m.log|
      ensures Honoured(m', m'.log[i])
    {
      assert m'.log[i] == m.log[i] && Honoured(m, m.log[i]);
    }
    forall i, j | 0 <= i < j < |m'.log|
      ensures NeverDowngraded(m'.log[i], m'.log[j])
    {
      assert m'.log[i] == m.log[i] && Honoured(m, m.log[i]);
      if j < |m.log| {
        assert m'.log[j] == m.log[j];
      }
    }
  }

  // ----- truth -----

  lemma HeardMore(heard: seq<Answer>, a: Answer, key: string)
    ensures Found(heard + [a], key) <==> Found(heard, key) || (a.Probe? && Key(a.name) == key && a.reply.Columns?)
    ensures Missed(heard + [a], key) <==> Missed(heard, key) || (a.Probe? && Key(a.name) == key && a.reply.NoColumns?)
  {
    hide Key;
    var more := heard + [a];
    assert more[|heard|] == a && forall i :: 0 <= i < |heard| ==> more[i] == heard[i];
  }

  lemma StillBacked(heard: seq<Answer>, a: Answer, e: Event)
    requires Backed(heard, e)
    ensures Backed(heard + [a], e)
  {
    hide Key;
    if e.Served? {
      HeardMore(heard, a, Key(e.name));
    }
    if e.Threw? {
      var i :| 0 <= i < |heard| && Failed(heard[i]);
      assert (heard + [a])[i] == heard[i];
    }
  }

  lemma LocalTruth(eagerSchema: bool, m: Memory, heard: seq<Answer>, pc: Pc, act: Act)
    requires Relies(m, pc) && Cached(m) && Truth(m, heard) && Local(eagerSchema, m, pc, act).Some?
    ensures Truth(Local(eagerSchema, m, pc, act).value.memory, heard + Overheard(pc, act))
  {
    hide Key, SettledUpTo;
    if Overheard(pc, act) == [] {
      assert heard + Overheard(pc, act) == heard;
      QuietStep(eagerSchema, m, heard, pc, act);
    } else {
      AnswerStep(eagerSchema, m, heard, pc, act);
    }
  }

  lemma QuietStep(eagerSchema: bool, m: Memory, heard: seq<Answer>, pc: Pc, act: Act)
    requires Relies(m, pc) && Cached(m) && Truth(m, heard) && Local(eagerSchema, m, pc, act).Some? && Overheard(pc, act) == []
    ensures Truth(Local(eagerSchema, m, pc, act).value.memory, heard)
  {
    hide Key, SettledUpTo, Found, Missed, Failed;
  }

  lemma AnswerStep(eagerSchema: bool, m: Memory, heard: seq<Answer>, pc: Pc, act: Act)
    requires Relies(m, pc) && Truth(m, heard) && Local(eagerSchema, m, pc, act).Some? && Overheard(pc, act) != []
    ensures Truth(Local(eagerSchema, m, pc, act).value.memory, heard + Overheard(pc, act))
  {
    hide Key, SettledUpTo, Found, Missed, Backed;
    var m' := Local(eagerSchema, m, pc, act).value.memory;
    var a := Overheard(pc, act)[0];
    assert Overheard(pc, act) == [a];
    var more := heard + [a];
    forall key: string
      ensures key in m'.entries <==> Found(more, key)
      ensures key in m'.missing <==> Missed(more, key)
    {
      HeardMore(heard, a, key);
    }
    forall i | 0 <= i < |m.log|
      ensures Backed(more, m.log[i])
    {
      StillBacked(heard, a, m.log[i]);
    }
    assert more[|heard|] == a;
    NewEventBacked(eagerSchema, m, heard, pc, act);
  }

  lemma NewEventBacked(eagerSchema: bool, m: Memory, heard: seq<Answer>, pc: Pc, act: Act)
    requires Local(eagerSchema, m, pc, act).Some? && Overheard(pc, act) != []
    ensures var log := Local(eagerSchema, m, pc, act).value.memory.log;
            |log| == |m.log| + 1 && log[..|m.log|] == m.log && Backed(heard + Overheard(pc, act), log[|m.log|])
  {
    hide Key;
    var a := Overheard(pc, act)[0];
    assert Overheard(pc, act) == [a];
    assert (heard + [a])[|heard|] == a;
    if a.Probe? {
      HeardMore(heard, a, Key(a.name));
    }
  }

  // ----- the whole system -----

  /** What a thread relies on survives any step of another: writers hold schema_mutex_, so a prober is not disturbed. */
  lemma StillRelies(m: Memory, m': Memory, pc: Pc)
    requires Relies(m, pc) && Grows(m, m') && (HoldsSchema(pc) ==> m' == m)
    ensures Relies(m', pc)
  {
    hide Key;
  }

  lemma StepKeepsInv(s: State, t: Thread, act: Act)
    requires Inv(s) && Step(s, t, act).Some?
    ensures Inv(Step(s, t, act).value) && Grows(s.memory, Step(s, t, act).value.memory)
    ensures Step(s, t, act).value.pcs.Keys == s.pcs.Keys
  {
    hide Local, Cached, Distinct, Logged, Truth, Relies, Grows, Overheard;
    var s', pc := Step(s, t, act).value, s.pcs[t];
    StepKeepsLocks(s, t, act);
    LocalGrows(s.eagerSchema, s.memory, pc, act);
    LocalRelies(s.eagerSchema, s.memory, pc, act);
    LocalCached(s.eagerSchema, s.memory, pc, act);
    LocalDistinct(s.eagerSchema, s.memory, pc, act);
    LocalTells(s.eagerSchema, s.memory, pc, act);
    LogKept(s.memory, s'.memory);
    LocalTruth(s.eagerSchema, s.memory, s.heard, pc, act);
    forall u | u in s'.pcs && u != t
      ensures Relies(s'.memory, s'.pcs[u])
    {
      if HoldsSchema(s.pcs[u]) {
        assert !HoldsSchema(pc);
        WritersHoldSchema(s.eagerSchema, s.memory, pc, act);
      }
      StillRelies(s.memory, s'.memory, s.pcs[u]);
    }
  }

  // ----- runs -----

  /** A run: each state comes from the one before it by a step of some thread. */
  ghost predicate Next(s: State, s': State) {
    exists t, act :: Step(s, t, act) == Some(s')
  }

  ghost predicate IsRun(run: seq<State>) {
    && run != [] && Init(run[0])
    && forall i :: 0 <= i < |run| - 1 ==> Next(run[i], run[i + 1])
  }

  lemma InitHolds(s: State)
    requires Init(s)
    ensures Inv(s)
  {
  }

  lemma {:induction false} RunHoldsInv(run: seq<State>, i: nat)
    requires IsRun(run) && i < |run|
    ensures Inv(run[i])
  {
    if i == 0 {
      InitHolds(run[0]);
    } else {
      RunHoldsInv(run, i - 1);
      assert Next(run[i - 1], run[i - 1 + 1]);
      var t, act :| Step(run[i - 1], t, act) == Some(run[i]);
      StepKeepsInv(run[i - 1], t, act);
    }
  }

  lemma GrowsReflexive(m: Memory)
    ensures Grows(m, m)
  {
  }

  lemma GrowsTransitive(a: Memory, b: Memory, c: Memory)
    requires Grows(a, b) && Grows(b, c)
    ensures Grows(a, c)
  {
  }

  /**
   * From any state of any run on, the names once loaded stay as they are, so a reference to them may be
   * read without the mutex; no cached entry is replaced or removed; eager loading is done once.
   */
  lemma {:induction false} CacheOnlyGrows(run: seq<State>, i: nat, j: nat)
    requires IsRun(run) && i <= j < |run|
    ensures Grows(run[i].memory, run[j].memory)
    decreases j
  {
    hide Step, Grows, Inv, Init;
    GrowsReflexive(run[i].memory);
    if i < j {
      CacheOnlyGrows(run, i, j - 1);
      RunHoldsInv(run, j - 1);
      assert Next(run[j - 1], run[j - 1 + 1]);
      var t, act :| Step(run[j - 1], t, act) == Some(run[j]);
      StepKeepsInv(run[j - 1], t, act);
      GrowsTransitive(run[i].memory, run[j - 1].memory, run[j].memory);
    }
  }

  /** At most one thread is at the server for metadata, however many look tables up. */
  lemma OneLoginAtATime(run: seq<State>, i: nat, t: Thread, u: Thread)
    requires IsRun(run) && i < |run| && t in run[i].pcs && u in run[i].pcs
    requires AtServer(run[i].pcs[t]) && AtServer(run[i].pcs[u])
    ensures t == u
  {
    RunHoldsInv(run, i);
    assert HoldsSchema(run[i].pcs[t]) && HoldsSchema(run[i].pcs[u]);
  }

  /** While the eager load reads names outside schema_mutex_, they are loaded and the turn is within them. */
  lemma UnlockedReadIsSafe(run: seq<State>, i: nat, t: Thread, j: nat)
    requires IsRun(run) && i < |run| && t in run[i].pcs && run[i].pcs[t].LoopTop? && i <= j < |run|
    ensures run[i].memory.tablesLoaded && run[i].pcs[t].i <= |run[i].memory.names|
    ensures run[j].memory.names == run[i].memory.names
  {
    RunHoldsInv(run, i);
    assert Relies(run[i].memory, run[i].pcs[t]);
    CacheOnlyGrows(run, i, j);
  }

  /** Everything given to callers stays true, and no key with a full entry is served anything less again. */
  lemma AnswersStayValid(run: seq<State>, i: nat, j: nat, e: Event)
    requires IsRun(run) && i <= j < |run| && e in run[i].memory.log
    ensures Honoured(run[j].memory, e)
    ensures forall k, l :: 0 <= k < l < |run[j].memory.log| ==> NeverDowngraded(run[j].memory.log[k], run[j].memory.log[l])
  {
    CacheOnlyGrows(run, i, j);
    RunHoldsInv(run, j);
    var k :| 0 <= k < |run[i].memory.log| && run[i].memory.log[k] == e;
    assert run[j].memory.log[k] == e;
  }

  /** Once the eager load is done, every name the server listed was found there, or the server said it has no columns. */
  lemma EagerLoadIsComplete(run: seq<State>, i: nat, names: seq<string>, n: nat)
    requires IsRun(run) && i < |run| && run[i].memory.eagerLoaded
    requires Listing(Tables(names)) in run[i].heard && n < |names|
    ensures Settled(run[i].memory, names[n])
    ensures Found(run[i].heard, Key(names[n])) || Missed(run[i].heard, Key(names[n]))
  {
    hide Key, Found, Missed;
    RunHoldsInv(run, i);
  }

  // ----- what callers are told, and what the server said -----

  /** A full entry is cached for a key if and only if the server found columns for a name of that key. */
  lemma CachedIsFound(run: seq<State>, i: nat, name: string)
    requires IsRun(run) && i < |run|
    ensures Key(name) in run[i].memory.entries <==>
              exists j :: 0 <= j < |run[i].heard| && run[i].heard[j].Probe? && run[i].heard[j].reply.Columns?
                          && SameButCase(run[i].heard[j].name, name)
  {
    hide Key, SameButCase;
    RunHoldsInv(run, i);
    assert Key(name) in run[i].memory.entries <==> Found(run[i].heard, Key(name));
    forall j | 0 <= j < |run[i].heard| && run[i].heard[j].Probe?
      ensures Key(run[i].heard[j].name) == Key(name) <==> SameButCase(run[i].heard[j].name, name)
    {
      KeyIgnoresCase(run[i].heard[j].name, name);
    }
  }

  /**
   * No table is reported missing unless the server said so, none is served whole unless the server showed
   * its columns, the names given out are those the server listed, and nothing is thrown unless an answer failed.
   */
  lemma CallersHearTheServer(run: seq<State>, i: nat, e: Event)
    requires IsRun(run) && i < |run| && e in run[i].memory.log
    ensures Backed(run[i].heard, e)
  {
    hide Backed;
    RunHoldsInv(run, i);
  }

  /** And every answer reaches the caller that waits for it: as a full entry, as no entry, as the names, or as an exception. */
  lemma AnswersReachCallers(s: State, t: Thread, reply: Reply)
    requires t in s.pcs && AtServer(s.pcs[t]) && Step(s, t, Continue(reply)).Some?
    ensures var (pc, s') := (s.pcs[t], Step(s, t, Continue(reply)).value);
            && |s'.memory.log| == |s.memory.log| + 1 && s'.memory.log[..|s.memory.log|] == s.memory.log
            && var told := s'.memory.log[|s.memory.log|];
               if pc.NamesLogin? then told == if reply.Tables? then Names(reply.names) else Threw
               else match reply
                    case Columns => told.Served? && told.name == pc.name && told.entry.Some? && told.entry.value.full
                    case NoColumns => told == Served(pc.name, None)
                    case _ => told == Threw
  {
    hide Key;
  }

  /** The letters A to Z and a to z in either case, every other character as it is. */
  predicate SameLetter(a: char, b: char) {
    a == b
    || ('A' <= a <= 'Z' && b as int == a as int + 32)
    || ('A' <= b <= 'Z' && a as int == b as int + 32)
  }

  predicate SameButCase(a: string, b: string) {
    |a| == |b| && forall i :: 0 <= i < |a| ==> SameLetter(a[i], b[i])
  }

  /** Names have one key exactly if they differ in the case of letters only. */
  lemma KeyIgnoresCase(a: string, b: string)
    ensures Key(a) == Key(b) <==> SameButCase(a, b)
  {
    if Key(a) == Key(b) {
      forall i | 0 <= i < |a|
        ensures SameLetter(a[i], b[i])
      {
        assert Key(a)[i] == Key(b)[i];
      }
    }
  }

  /** So names that differ in case only are served one and the same entry, full or not. */
  lemma OneEntryForAllCases(run: seq<State>, i: nat, a: Event, b: Event)
    requires IsRun(run) && i < |run| && a in run[i].memory.log && b in run[i].memory.log
    requires a.Served? && b.Served? && SameButCase(a.name, b.name) && a.entry.Some? && b.entry.Some?
    ensures a.entry.value.full == b.entry.value.full ==> a.entry == b.entry
  {
    hide Key;
    KeyIgnoresCase(a.name, b.name);
    AnswersStayValid(run, i, i, a);
    AnswersStayValid(run, i, i, b);
  }

  /** And names that do not are never served one object, nor is a full entry ever the object of one that is not. */
  lemma EntriesAreDistinct(run: seq<State>, i: nat, a: Event, b: Event)
    requires IsRun(run) && i < |run| && a in run[i].memory.log && b in run[i].memory.log
    requires a.Served? && b.Served? && a.entry.Some? && b.entry.Some?
    ensures a.entry.value.id == b.entry.value.id <==>
              SameButCase(a.name, b.name) && a.entry.value.full == b.entry.value.full
  {
    hide Key;
    KeyIgnoresCase(a.name, b.name);
    RunHoldsInv(run, i);
    assert Honoured(run[i].memory, a) && Honoured(run[i].memory, b);
  }

  // ----- whole calls -----

  /** What a thread was called for. */
  datatype Errand = NoErrand | ListTables | GetEntry(name: string) | GetScan(name: string) | LoadAll

  function ErrandOf(pc: Pc): Errand {
    match pc
    case Idle => NoErrand
    case NamesWait(k) => if k.Client? then ListTables else LoadAll
    case NamesLocked(k) => if k.Client? then ListTables else LoadAll
    case NamesLogin(k) => if k.Client? then ListTables else LoadAll
    case EntryWait(name, k) => if k.Client? then GetEntry(name) else LoadAll
    case EntryLocked(name, k) => if k.Client? then GetEntry(name) else LoadAll
    case EntryProbe(name, k) => if k.Client? then GetEntry(name) else LoadAll
    case ScanWait(name) => GetScan(name)
    case ScanLocked(name) => GetScan(name)
    case _ => LoadAll
  }

  function CalledFor(act: Act): Errand {
    match act
    case CallNames => ListTables
    case CallEntry(name) => GetEntry(name)
    case CallScan(name) => GetScan(name)
    case CallEager => LoadAll
    case Continue(_) => NoErrand
  }

  /** The caller was answered for what it asked: with a full entry or none, with the full entry if there is one or else one for scans. */
  predicate Answered(m: Memory, errand: Errand, e: Event) {
    match errand
    case NoErrand => false
    case ListTables => e == Names(m.names) || e.Threw?
    case GetEntry(name) => e.Threw? || (e.Served? && e.name == name && (e.entry.Some? ==> e.entry.value.full))
    case GetScan(name) =>
      e.Served? && e.name == name && e.entry.Some? && (e.entry.value.full <==> Key(name) in m.entries)
    case LoadAll => e.Threw?
  }

  lemma LocalErrand(eagerSchema: bool, m: Memory, pc: Pc, act: Act)
    requires Local(eagerSchema, m, pc, act).Some?
    requires (forall k :: k in m.entries ==> m.entries[k].full) && forall k :: k in m.scanEntries ==> !m.scanEntries[k].full
    ensures var e := Local(eagerSchema, m, pc, act).value;
            var errand := if pc.Idle? then CalledFor(act) else ErrandOf(pc);
            && (!e.pc.Idle? ==> ErrandOf(e.pc) == errand)
            && (e.pc.Idle? ==>
                  if |e.memory.log| > |m.log| then Answered(e.memory, errand, e.memory.log[|e.memory.log| - 1])
                  else errand == LoadAll && (e.memory.eagerLoaded || !eagerSchema))
  {
    hide Key;
  }

  /**
   * A thread keeps to what it was called for until it is idle again, and then its caller has been answered;
   * an eager load tells its caller nothing unless it threw, and has then loaded all if it was asked to.
   */
  lemma ErrandsAreRun(run: seq<State>, i: nat, t: Thread, act: Act)
    requires IsRun(run) && i < |run| && Step(run[i], t, act).Some?
    ensures var (pc, s') := (run[i].pcs[t], Step(run[i], t, act).value);
            var (m, m', errand) := (run[i].memory, s'.memory, if pc.Idle? then CalledFor(act) else ErrandOf(pc));
            && (!s'.pcs[t].Idle? ==> ErrandOf(s'.pcs[t]) == errand)
            && (s'.pcs[t].Idle? ==>
                  if |m'.log| > |m.log| then Answered(m', errand, m'.log[|m'.log| - 1])
                  else errand == LoadAll && (m'.eagerLoaded || !run[i].eagerSchema))
  {
    hide Local, ErrandOf, CalledFor, Answered, Locks, Truth, Logged, Distinct;
    RunHoldsInv(run, i);
    LocalErrand(run[i].eagerSchema, run[i].memory, run[i].pcs[t], act);
  }

  // ----- eager loading -----

  /** Without the option nothing is loaded eagerly. */
  lemma {:induction false} NoEagerLoadUnasked(run: seq<State>, i: nat)
    requires IsRun(run) && i < |run| && !run[0].eagerSchema
    ensures !run[i].eagerSchema && !run[i].memory.eagerLoaded
    ensures forall t :: t in run[i].pcs ==> !run[i].pcs[t].EagerWait? && !HoldsEager(run[i].pcs[t])
  {
    hide Local, HoldsEager;
    if i == 0 {
      NobodyLoads(run[0]);
    } else {
      NoEagerLoadUnasked(run, i - 1);
      assert Next(run[i - 1], run[i - 1 + 1]);
      var t, act :| Step(run[i - 1], t, act) == Some(run[i]);
      NobodyStarts(run[i - 1].memory, run[i - 1].pcs[t], act);
    }
  }

  lemma NobodyLoads(s: State)
    requires Init(s)
    ensures !s.memory.eagerLoaded && forall t :: t in s.pcs ==> !s.pcs[t].EagerWait? && !HoldsEager(s.pcs[t])
  {
  }

  lemma NobodyStarts(m: Memory, pc: Pc, act: Act)
    requires !pc.EagerWait? && !HoldsEager(pc) && Local(false, m, pc, act).Some?
    ensures var e := Local(false, m, pc, act).value; !e.pc.EagerWait? && !HoldsEager(e.pc) && e.memory.eagerLoaded == m.eagerLoaded
  {
    hide Key;
  }

  /** With it, an eager load ends loaded, or with an exception. */
  lemma EagerCallLoads(s: State, t: Thread, act: Act)
    requires t in s.pcs && (s.pcs[t].EagerWait? || HoldsEager(s.pcs[t])) && Step(s, t, act).Some?
    requires Step(s, t, act).value.pcs[t].Idle?
    ensures var m := Step(s, t, act).value.memory;
            m.eagerLoaded || (|m.log| == |s.memory.log| + 1 && m.log[|s.memory.log|] == Threw)
  {
    hide Key;
  }

  /** An eager load past its check. */
  predicate Loading(pc: Pc) {
    HoldsEager(pc) && !pc.CheckWait? && !pc.CheckLocked?
  }

  lemma LocalLoads(eagerSchema: bool, m: Memory, pc: Pc, act: Act)
    requires Local(eagerSchema, m, pc, act).Some?
    ensures var e := Local(eagerSchema, m, pc, act).value;
            && (Loading(e.pc) ==> Loading(pc) || (HoldsEager(pc) && !m.eagerLoaded))
            && (e.memory.eagerLoaded && !m.eagerLoaded ==> HoldsEager(pc) && e.pc.Idle?)
  {
    hide Key;
  }

  /** It is done once: when everything is loaded nobody is loading any more, or ever again. */
  lemma {:induction false} LoadsOnce(run: seq<State>, i: nat, j: nat, t: Thread)
    requires IsRun(run) && i <= j < |run| && run[i].memory.eagerLoaded && t in run[j].pcs
    ensures !Loading(run[j].pcs[t])
    decreases j
  {
    hide Local, Loading, HoldsEager, HoldsSchema, Cached, Logged, Truth, Distinct, Relies;
    CacheOnlyGrows(run, i, j);
    if j > 0 {
      RunHoldsInv(run, j - 1);
      assert Next(run[j - 1], run[j - 1 + 1]);
      var u, act :| Step(run[j - 1], u, act) == Some(run[j]);
      LocalLoads(run[j - 1].eagerSchema, run[j - 1].memory, run[j - 1].pcs[u], act);
      LoadingHolds(run[j - 1].pcs[t]);
      LoadingHolds(run[j].pcs[t]);
      if run[j - 1].memory.eagerLoaded {
        LoadsOnce(run, j - 1, j - 1, t);
        if u != t {
          LoadsOnce(run, j - 1, j - 1, u);
        }
      }
    }
  }

  lemma LoadingHolds(pc: Pc)
    ensures Loading(pc) ==> HoldsEager(pc) && !pc.Idle?
  {
  }

  /** A thread that is in no call may make any. */
  lemma CallsBegin(s: State, t: Thread, act: Act)
    requires t in s.pcs && s.pcs[t].Idle? && !act.Continue?
    ensures Step(s, t, act).Some? && Step(s, t, act).value.memory == s.memory
  {
    hide Key;
  }

  // ----- no deadlock -----

  /** The thread whose mutex this one waits for. */
  function WaitsFor(s: State, t: Thread): Option<Thread>
    requires t in s.pcs
  {
    var pc := s.pcs[t];
    if pc.EagerWait? then s.eagerOwner
    else if pc.NamesWait? || pc.EntryWait? || pc.ScanWait? || pc.CheckWait? || pc.DoneWait? then s.schemaOwner
    else None
  }

  lemma ReadyOrWaiting(s: State, t: Thread, reply: Reply)
    requires Locks(s) && t in s.pcs && !s.pcs[t].Idle?
    ensures Step(s, t, Continue(reply)).Some? <==> WaitsFor(s, t).None?
  {
    hide Key;
  }

  /**
   * No deadlock: whatever the server answers, a thread in the middle of a call can go on, or the thread
   * that holds its mutex can, or the one that holds that thread's mutex can. Waiting chains end there.
   */
  lemma NoDeadlock(run: seq<State>, i: nat, t: Thread, reply: Reply) returns (u: Thread)
    requires IsRun(run) && i < |run| && t in run[i].pcs && !run[i].pcs[t].Idle?
    ensures var s := run[i];
            && u in s.pcs && !s.pcs[u].Idle? && Step(s, u, Continue(reply)).Some?
            && (u == t
                || WaitsFor(s, t) == Some(u)
                || (WaitsFor(s, t).Some? && WaitsFor(s, t).value in s.pcs && WaitsFor(s, WaitsFor(s, t).value) == Some(u)))
  {
    hide Step;
    RunHoldsInv(run, i);
    var s := run[i];
    u := t;
    if WaitsFor(s, u).Some? {
      u := WaitsFor(s, t).value;
      assert HoldsSchema(s.pcs[u]) || HoldsEager(s.pcs[u]);
      if WaitsFor(s, u).Some? {
        u := WaitsFor(s, u).value;
        assert HoldsSchema(s.pcs[u]);
      }
    }
    ReadyOrWaiting(s, u, reply);
  }

  // ----- every call ends -----

  /** Where in its call a thread is; an eager load loads the names, takes its turns, then finishes. */
  function Phase(pc: Pc): nat {
    match pc
    case Idle => 0
    case NamesWait(k) => if k.Client? then 3 else 23
    case NamesLocked(k) => if k.Client? then 2 else 22
    case NamesLogin(k) => if k.Client? then 1 else 21
    case EntryWait(_, k) => if k.Client? then 3 else 10
    case EntryLocked(_, k) => if k.Client? then 2 else 10
    case EntryProbe(_, k) => if k.Client? then 1 else 10
    case ScanWait(_) => 2
    case ScanLocked(_) => 1
    case EagerWait => 26
    case CheckWait => 25
    case CheckLocked => 24
    case LoopTop(_) => 10
    case DoneWait => 9
    case DoneLocked => 8
  }

  /** Steps left in the turns of the eager load. */
  function Turns(m: Memory, pc: Pc): nat {
    match pc
    case EntryWait(_, EagerLoad(i)) => if i < |m.names| then 4 * (|m.names| - i) - 1 else 0
    case EntryLocked(_, EagerLoad(i)) => if i < |m.names| then 4 * (|m.names| - i) - 2 else 0
    case EntryProbe(_, EagerLoad(i)) => if i < |m.names| then 4 * (|m.names| - i) - 3 else 0
    case LoopTop(i) => if i < |m.names| then 4 * (|m.names| - i) else 0
    case _ => 0
  }

  /** Every step of a call brings its thread closer to the end of the call, so no call goes on for ever. */
  lemma CallsMakeProgress(run: seq<State>, i: nat, t: Thread, reply: Reply)
    requires IsRun(run) && i < |run| && t in run[i].pcs && Step(run[i], t, Continue(reply)).Some?
    ensures var s, s' := run[i], Step(run[i], t, Continue(reply)).value;
            && t in s'.pcs
            && (Phase(s'.pcs[t]) < Phase(s.pcs[t])
                || (Phase(s'.pcs[t]) == Phase(s.pcs[t]) && Turns(s'.memory, s'.pcs[t]) < Turns(s.memory, s.pcs[t])))
  {
    hide Key, Locks, Cached, Logged;
    RunHoldsInv(run, i);
    assert Relies(run[i].memory, run[i].pcs[t]);
    LocalProgress(run[i].eagerSchema, run[i].memory, run[i].pcs[t], reply);
  }

  lemma LocalProgress(eagerSchema: bool, m: Memory, pc: Pc, reply: Reply)
    requires Relies(m, pc) && Local(eagerSchema, m, pc, Continue(reply)).Some?
    ensures var e := Local(eagerSchema, m, pc, Continue(reply)).value;
            Phase(e.pc) < Phase(pc) || (Phase(e.pc) == Phase(pc) && Turns(e.memory, e.pc) < Turns(m, pc))
  {
    hide Key, SettledUpTo;
  }

  /** The steps of other threads do not set a call back. */
  lemma OthersDoNotSetBack(run: seq<State>, i: nat, t: Thread, u: Thread, act: Act)
    requires IsRun(run) && i < |run| && t in run[i].pcs && u in run[i].pcs && t != u && Step(run[i], u, act).Some?
    ensures var s, s' := run[i], Step(run[i], u, act).value;
            t in s'.pcs && s'.pcs[t] == s.pcs[t] && Turns(s'.memory, s'.pcs[t]) == Turns(s.memory, s.pcs[t])
  {
    hide Step, Locks, Cached, Logged;
    RunHoldsInv(run, i);
    StepKeepsInv(run[i], u, act);
    OthersStay(run[i], t, u, act);
    assert Relies(run[i].memory, run[i].pcs[t]);
  }

  lemma OthersStay(s: State, t: Thread, u: Thread, act: Act)
    requires t in s.pcs && u in s.pcs && t != u && Step(s, u, act).Some?
    ensures t in Step(s, u, act).value.pcs && Step(s, u, act).value.pcs[t] == s.pcs[t]
  {
    hide Local;
  }
}
