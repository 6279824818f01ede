/**
 * The shared schema cache as an interleaving of threads. Each step is what one thread does between two
 * points where another may run: waiting for a mutex, holding it, waiting for the server, reading the
 * table names outside the mutex.
 */
module Catalog {
  import opened Wrappers

  type Thread = nat

  /** A cached catalog entry: which object it is, and whether its columns have been probed. */
  datatype Entry = Entry(id: nat, full: bool)

  /** Who called GetTableNames or GetTableEntry: a client of the catalog, or the i-th turn of the eager load. */
  datatype Caller = Client | EagerLoad(i: nat)

  datatype Pc =
    | Idle
    | NamesWait(k: Caller)                 // GetTableNames, before schema_mutex_
    | NamesLocked(k: Caller)
    | NamesLogin(k: Caller)                // list_tables in flight
    | EntryWait(name: string, k: Caller)   // GetTableEntry
    | EntryLocked(name: string, k: Caller)
    | EntryProbe(name: string, k: Caller)  // schema probe in flight
    | ScanWait(name: string)               // GetScanEntry
    | ScanLocked(name: string)
    | EagerWait                            // EnsureEagerLoaded, before eager_load_mutex_
    | CheckWait                            // holding it, before schema_mutex_
    | CheckLocked
    | LoopTop(i: nat)                      // the range-for over the names, outside schema_mutex_
    | DoneWait
    | DoneLocked

  /** What callers have been given. */
  datatype Event =
    | Names(names: seq<string>)
    | Served(name: string, entry: Option<Entry>)
    | Threw

  /** The fields the mutexes guard, with what has been learnt and given out so far. */
  datatype Memory = Memory(
    tablesLoaded: bool,
    names: seq<string>,
    eagerLoaded: bool,
    entries: map<string, Entry>,
    scanEntries: map<string, Entry>,
    nextId: nat,
    missing: set<string>,
    log: seq<Event>)

  /** What the server has answered: to a request for the table list, to the probe of a name. */
  datatype Answer = Listing(reply: Reply) | Probe(name: string, reply: Reply)

  datatype State = State(
    eagerSchema: bool,
    schemaOwner: Option<Thread>,
    eagerOwner: Option<Thread>,
    memory: Memory,
    heard: seq<Answer>,
    pcs: map<Thread, Pc>)

  function LowerChar(c: char): char {
    if 'A' <= c <= 'Z' then (c as int + 32) as char else c
  }

  /** The maps are keyed without regard to case. */
  function Key(name: string): (key: string)
    ensures |key| == |name|
  {
    seq(|name|, i requires 0 <= i < |name| => LowerChar(name[i]))
  }

  // ----- steps -----

  /** What the server may answer; anything else is an exception. */
  datatype Reply = Tables(names: seq<string>) | Columns | NoColumns | Failure

  datatype Act = CallNames | CallEntry(name: string) | CallScan(name: string) | CallEager | Continue(reply: Reply)

  datatype LockOp = Keep | Take | Release

  /** What a step does: to the memory, to its thread, to the two mutexes. */
  datatype Effect = Effect(memory: Memory, pc: Pc, schema: LockOp, eager: LockOp)

  function Move(m: Memory, pc: Pc): Option<Effect> {
    Some(Effect(m, pc, Keep, Keep))
  }

  function Lock(m: Memory, pc: Pc): Option<Effect> {
    Some(Effect(m, pc, Take, Keep))
  }

  /** An exception releases every mutex its thread holds. */
  function Throw(m: Memory, k: Caller): Option<Effect> {
    Some(Effect(m.(log := m.log + [Threw]), Idle, Release, if k.EagerLoad? then Release else Keep))
  }

  function ReturnNames(m: Memory, k: Caller): Option<Effect> {
    Some(Effect(m.(log := m.log + [Names(m.names)]), if k.Client? then Idle else LoopTop(0), Release, Keep))
  }

  function ReturnEntry(m: Memory, k: Caller, name: string, e: Option<Entry>): Option<Effect> {
    Some(Effect(m.(log := m.log + [Served(name, e)]), if k.Client? then Idle else LoopTop(k.i + 1), Release, Keep))
  }

  /** GetTableNames. */
  function NamesStep(m: Memory, pc: Pc, reply: Reply): Option<Effect>
    requires pc.NamesWait? || pc.NamesLocked? || pc.NamesLogin?
  {
    match pc
    case NamesWait(k) => Lock(m, NamesLocked(k))
    case NamesLocked(k) => if m.tablesLoaded then ReturnNames(m, k) else Move(m, NamesLogin(k))
    case NamesLogin(k) => if reply.Tables? then ReturnNames(m.(names := reply.names, tablesLoaded := true), k) else Throw(m, k)
  }

  /** GetTableEntry. */
  function EntryStep(m: Memory, pc: Pc, reply: Reply): Option<Effect>
    requires pc.EntryWait? || pc.EntryLocked? || pc.EntryProbe?
  {
    match pc
    case EntryWait(name, k) => Lock(m, EntryLocked(name, k))
    case EntryLocked(name, k) =>
      if Key(name) in m.entries then ReturnEntry(m, k, name, Some(m.entries[Key(name)])) else Move(m, EntryProbe(name, k))
    case EntryProbe(name, k) =>
      if reply.Columns? then
        var e := Entry(m.nextId, true);
        ReturnEntry(m.(entries := m.entries[Key(name) := e], nextId := m.nextId + 1), k, name, Some(e))
      else if reply.NoColumns? then ReturnEntry(m.(missing := m.missing + {Key(name)}), k, name, None)
      else Throw(m, k)
  }

  /** GetScanEntry. */
  function ScanStep(m: Memory, pc: Pc): Option<Effect>
    requires pc.ScanWait? || pc.ScanLocked?
  {
    match pc
    case ScanWait(name) => Lock(m, ScanLocked(name))
    case ScanLocked(name) =>
      if Key(name) in m.entries then ReturnEntry(m, Client, name, Some(m.entries[Key(name)]))
      else if Key(name) in m.scanEntries then ReturnEntry(m, Client, name, Some(m.scanEntries[Key(name)]))
      else
        var e := Entry(m.nextId, false);
        ReturnEntry(m.(scanEntries := m.scanEntries[Key(name) := e], nextId := m.nextId + 1), Client, name, Some(e))
  }

  predicate IsEagerPc(pc: Pc) {
    pc.EagerWait? || pc.CheckWait? || pc.CheckLocked? || pc.LoopTop? || pc.DoneWait? || pc.DoneLocked?
  }

  /** EnsureEagerLoaded. */
  function EagerStep(m: Memory, pc: Pc): Option<Effect>
    requires IsEagerPc(pc)
  {
    match pc
    case EagerWait => Some(Effect(m, CheckWait, Keep, Take))
    case CheckWait => Lock(m, CheckLocked)
    case CheckLocked =>
      if m.eagerLoaded then Some(Effect(m, Idle, Release, Release))
      else Some(Effect(m, NamesWait(EagerLoad(0)), Release, Keep))
    case LoopTop(i) => Move(m, if i < |m.names| then EntryWait(m.names[i], EagerLoad(i)) else DoneWait)
    case DoneWait => Lock(m, DoneLocked)
    case DoneLocked => Some(Effect(m.(eagerLoaded := true), Idle, Release, Release))
  }

  function BeginCall(eagerSchema: bool, m: Memory, act: Act): Option<Effect> {
    match act
    case CallNames => Move(m, NamesWait(Client))
    case CallEntry(name) => Move(m, EntryWait(name, Client))
    case CallScan(name) => Move(m, ScanWait(name))
    case CallEager => Move(m, if eagerSchema then EagerWait else Idle)
    case Continue(_) => None
  }

  function Local(eagerSchema: bool, m: Memory, pc: Pc, act: Act): Option<Effect> {
    if pc.Idle? then BeginCall(eagerSchema, m, act)
    else if !act.Continue? then None
    else if pc.NamesWait? || pc.NamesLocked? || pc.NamesLogin? then NamesStep(m, pc, act.reply)
    else if pc.EntryWait? || pc.EntryLocked? || pc.EntryProbe? then EntryStep(m, pc, act.reply)
    else if pc.ScanWait? || pc.ScanLocked? then ScanStep(m, pc)
    else EagerStep(m, pc)
  }

  /** A thread at the server hears its answer, whatever it makes of it. */
  function Overheard(pc: Pc, act: Act): seq<Answer> {
    if !act.Continue? then []
    else
      match pc
      case NamesLogin(_) => [Listing(act.reply)]
      case EntryProbe(name, _) => [Probe(name, act.reply)]
      case _ => []
  }

  function Owner(owner: Option<Thread>, t: Thread, op: LockOp): Option<Thread> {
    match op
    case Keep => owner
    case Take => Some(t)
    case Release => None
  }

  /** One step of one thread; none if a mutex it needs is taken. */
  function Step(s: State, t: Thread, act: Act): Option<State> {
    if t !in s.pcs then None
    else
      var effect := Local(s.eagerSchema, s.memory, s.pcs[t], act);
      if effect.None? then None
      else
        var e := effect.value;
        if (e.schema.Take? && s.schemaOwner.Some?) || (e.eager.Take? && s.eagerOwner.Some?) then None
        else Some(State(s.eagerSchema, Owner(s.schemaOwner, t, e.schema), Owner(s.eagerOwner, t, e.eager), e.memory,
                        s.heard + Overheard(s.pcs[t], act), s.pcs[t := e.pc]))
  }

  predicate Init(s: State) {
    && s.schemaOwner.None? && s.eagerOwner.None?
    && s.memory == Memory(false, [], false, map[], map[], 0, {}, []) && s.heard == []
    && forall t :: t in s.pcs ==> s.pcs[t].Idle?
  }

  // ----- the invariant -----

  predicate HoldsSchema(pc: Pc) {
    pc.NamesLocked? || pc.NamesLogin? || pc.EntryLocked? || pc.EntryProbe? || pc.ScanLocked? || pc.CheckLocked? || pc.DoneLocked?
  }

  predicate HoldsEager(pc: Pc) {
    match pc
    case NamesWait(k) => k.EagerLoad?
    case NamesLocked(k) => k.EagerLoad?
    case NamesLogin(k) => k.EagerLoad?
    case EntryWait(_, k) => k.EagerLoad?
    case EntryLocked(_, k) => k.EagerLoad?
    case EntryProbe(_, k) => k.EagerLoad?
    case _ => pc.CheckWait? || pc.CheckLocked? || pc.LoopTop? || pc.DoneWait? || pc.DoneLocked?
  }

  /** A thread is at the server for metadata. */
  predicate AtServer(pc: Pc) {
    pc.NamesLogin? || pc.EntryProbe?
  }

  ghost predicate Locks(s: State) {
    && (forall t :: t in s.pcs ==> (HoldsSchema(s.pcs[t]) <==> s.schemaOwner == Some(t)))
    && (forall t :: t in s.pcs ==> (HoldsEager(s.pcs[t]) <==> s.eagerOwner == Some(t)))
    && (s.schemaOwner.Some? ==> s.schemaOwner.value in s.pcs)
    && (s.eagerOwner.Some? ==> s.eagerOwner.value in s.pcs)
  }

  /** The name was found, or the server said it has no columns. */
  predicate Settled(m: Memory, name: string) {
    Key(name) in m.entries || Key(name) in m.missing
  }

  predicate SettledUpTo(m: Memory, n: nat) {
    n <= |m.names| && forall j :: 0 <= j < n ==> Settled(m, m.names[j])
  }

  /** The i-th turn of an eager load: the names are loaded, this is the i-th, and those before it are settled. */
  predicate Turn(m: Memory, name: string, k: Caller) {
    k.EagerLoad? ==> m.tablesLoaded && k.i < |m.names| && name == m.names[k.i] && SettledUpTo(m, k.i)
  }

  /** What a thread relies on while it is where it is. */
  predicate Relies(m: Memory, pc: Pc) {
    match pc
    case NamesLogin(_) => !m.tablesLoaded
    case EntryWait(name, k) => Turn(m, name, k)
    case EntryLocked(name, k) => Turn(m, name, k)
    case EntryProbe(name, k) => Key(name) !in m.entries && Turn(m, name, k)
    case LoopTop(i) => m.tablesLoaded && SettledUpTo(m, i)
    case DoneWait => m.tablesLoaded && SettledUpTo(m, |m.names|)
    case DoneLocked => m.tablesLoaded && SettledUpTo(m, |m.names|)
    case _ => true
  }

  predicate Cached(m: Memory) {
    && (forall k :: k in m.entries ==> m.entries[k].full)
    && (forall k :: k in m.scanEntries ==> !m.scanEntries[k].full)
    && (m.eagerLoaded ==> m.tablesLoaded && SettledUpTo(m, |m.names|))
  }

  /** No two cached entries are one object. */
  predicate Distinct(entries: map<string, Entry>, scans: map<string, Entry>, nextId: nat) {
    && (forall k :: k in entries ==> entries[k].id < nextId)
    && (forall k :: k in scans ==> scans[k].id < nextId)
    && (forall k, l :: k in entries && l in entries && entries[k].id == entries[l].id ==> k == l)
    && (forall k, l :: k in scans && l in scans && scans[k].id == scans[l].id ==> k == l)
    && (forall k, l :: k in entries && l in scans ==> entries[k].id != scans[l].id)
  }

  /** Everything ever given to a caller is still what the cache holds. */
  predicate Honoured(m: Memory, e: Event) {
    match e
    case Names(names) => m.tablesLoaded && names == m.names
    case Served(_, None) => true
    case Served(name, Some(entry)) =>
      if entry.full then Key(name) in m.entries && m.entries[Key(name)] == entry
      else Key(name) in m.scanEntries && m.scanEntries[Key(name)] == entry
    case Threw => true
  }

  /** Once a full entry has been served for a key, every later answer for it is that entry. */
  predicate NeverDowngraded(earlier: Event, later: Event) {
    earlier.Served? && earlier.entry.Some? && earlier.entry.value.full && later.Served? && Key(later.name) == Key(earlier.name) ==>
      later.entry == earlier.entry
  }

  // ----- what the server said -----

  /** The server found columns for the name, in whatever case it was asked. */
  predicate Found(heard: seq<Answer>, key: string) {
    exists i :: 0 <= i < |heard| && heard[i].Probe? && Key(heard[i].name) == key && heard[i].reply.Columns?
  }

  predicate Missed(heard: seq<Answer>, key: string) {
    exists i :: 0 <= i < |heard| && heard[i].Probe? && Key(heard[i].name) == key && heard[i].reply.NoColumns?
  }

  /** An answer that is none: the connection failed, or the reply makes no sense for the request. */
  predicate Failed(a: Answer) {
    match a
    case Listing(reply) => !reply.Tables?
    case Probe(_, reply) => !reply.Columns? && !reply.NoColumns?
  }

  /** What callers were told is what the server said. */
  predicate Backed(heard: seq<Answer>, e: Event) {
    match e
    case Names(names) => Listing(Tables(names)) in heard
    case Served(name, None) => Missed(heard, Key(name))
    case Served(name, Some(entry)) => entry.full ==> Found(heard, Key(name))
    case Threw => exists i :: 0 <= i < |heard| && Failed(heard[i])
  }

  /** The cache holds what the server said, and nothing else. */
  ghost predicate Truth(m: Memory, heard: seq<Answer>) {
    && (forall key: string :: key in m.entries <==> Found(heard, key))
    && (forall key: string :: key in m.missing <==> Missed(heard, key))
    && (m.tablesLoaded ==> Listing(Tables(m.names)) in heard)
    && (forall a :: a in heard && a.Listing? && a.reply.Tables? ==> m.tablesLoaded && a.reply.names == m.names)
    && (forall i :: 0 <= i < |m.log| ==> Backed(heard, m.log[i]))
  }

  predicate Logged(m: Memory) {
    && (forall i :: 0 <= i < |m.log| ==> Honoured(m, m.log[i]))
    && (forall i, j :: 0 <= i < j < |m.log| ==> NeverDowngraded(m.log[i], m.log[j]))
  }

  ghost predicate Inv(s: State) {
    && Locks(s) && Cached(s.memory) && Distinct(s.memory.entries, s.memory.scanEntries, s.memory.nextId) && Logged(s.memory) && Truth(s.memory, s.heard)
    && forall t :: t in s.pcs ==> Relies(s.memory, s.pcs[t])
  }

  /** Nothing a caller may hold on to changes: the names once loaded, the entries, what is known of them. */
  predicate Grows(m: Memory, m': Memory) {
    && (m.tablesLoaded ==> m'.tablesLoaded && m'.names == m.names)
    && (forall k :: k in m.entries ==> k in m'.entries && m'.entries[k] == m.entries[k])
    && (forall k :: k in m.scanEntries ==> k in m'.scanEntries && m'.scanEntries[k] == m.scanEntries[k])
    && m.missing <= m'.missing
    && (m.eagerLoaded ==> m'.eagerLoaded)
    && m.log <= m'.log
  }
}
