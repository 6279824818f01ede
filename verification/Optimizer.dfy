/** LIMIT pushdown: the plan walk that stamps row caps on attached scans, and what it does to results. */
module Optimizer {
  import opened Wrappers
  import opened Client

  type Row = Cells

  const IDX_LIMIT: nat := 0x1_0000_0000_0000_0000

  /** The part of a scan's bind data the optimizer writes; a hint of zero is no hint. */
  class Bind {
    var limitHint: nat
    var limitHardCap: bool

    constructor ()
      ensures limitHint == 0 && !limitHardCap
    {
      limitHint, limitHardCap := 0, false;
    }
  }

  /** A LIMIT as the planner leaves it. A computed one has its value only once the plan runs. */
  datatype LimitNode = Unset | Constant(n: nat) | Computed(value: nat) | Percentage(percent: nat)

  datatype OffsetNode = NoOffset | ConstantOffset(n: nat) | ComputedOffset(value: nat)

  datatype Plan =
    | AttachedScan(bind: Bind)
    | OtherGet(rows: seq<Row>)
    | Projection(f: Row -> Row, input: Plan)
    | Filter(p: Row -> bool, input: Plan)
    | Limit(limit: LimitNode, offset: OffsetNode, input: Plan)
    | Other(combine: seq<seq<Row>> -> seq<Row>, inputs: seq<Plan>)

  datatype Hint = Hint(limit: nat, hard: bool)

  type Hints = map<Bind, Hint>

  // ----- binds -----

  ghost function Binds(op: Plan): set<Bind> {
    match op
    case AttachedScan(b) => {b}
    case OtherGet(_) => {}
    case Projection(_, input) => Binds(input)
    case Filter(_, input) => Binds(input)
    case Limit(_, _, input) => Binds(input)
    case Other(_, inputs) => AllBinds(inputs)
  }

  ghost function AllBinds(ops: seq<Plan>): set<Bind> {
    if ops == [] then {} else AllBinds(ops[..|ops| - 1]) + Binds(ops[|ops| - 1])
  }

  /** Every scan owns its bind data. */
  ghost predicate Separate(op: Plan) {
    match op
    case AttachedScan(_) => true
    case OtherGet(_) => true
    case Projection(_, input) => Separate(input)
    case Filter(_, input) => Separate(input)
    case Limit(_, _, input) => Separate(input)
    case Other(_, inputs) => AllSeparate(inputs)
  }

  ghost predicate AllSeparate(ops: seq<Plan>) {
    ops == []
    || (AllSeparate(ops[..|ops| - 1]) && Separate(ops[|ops| - 1]) && AllBinds(ops[..|ops| - 1]) !! Binds(ops[|ops| - 1]))
  }

  lemma {:induction false} BindsOfInput(ops: seq<Plan>, i: nat)
    requires i < |ops|
    ensures Binds(ops[i]) <= AllBinds(ops)
    decreases |ops|
  {
    if i < |ops| - 1 {
      BindsOfInput(ops[..|ops| - 1], i);
    }
  }

  lemma {:induction false} BindsOfPrefix(ops: seq<Plan>, i: nat)
    requires i <= |ops|
    ensures AllBinds(ops[..i]) <= AllBinds(ops)
    decreases |ops|
  {
    if i < |ops| {
      BindsOfPrefix(ops[..|ops| - 1], i);
      assert ops[..|ops| - 1][..i] == ops[..i];
    } else {
      assert ops[..i] == ops;
    }
  }

  // ----- the rewrite as a function -----

  /** The scan below pass-through operators, and whether a filter has been met on the way. */
  function Find(op: Plan, sawFilter: bool): (Option<Bind>, bool) {
    match op
    case AttachedScan(b) => (Some(b), sawFilter)
    case OtherGet(_) => (None, sawFilter)
    case Projection(_, input) => Find(input, sawFilter)
    case Filter(_, input) => Find(input, true)
    case Limit(_, _, _) => (None, sawFilter)
    case Other(_, _) => (None, sawFilter)
  }

  lemma {:induction false} FoundBelow(op: Plan, sawFilter: bool)
    ensures Find(op, sawFilter).0.Some? ==> Find(op, sawFilter).0.value in Binds(op)
  {
    match op
    case Projection(_, input) => FoundBelow(input, sawFilter);
    case Filter(_, input) => FoundBelow(input, true);
    case _ =>
  }

  /** Limit plus constant offset, in 64 bits; an offset that is not constant counts as zero. */
  function Cap(n: nat, offset: OffsetNode): nat {
    (n + if offset.ConstantOffset? then offset.n else 0) % IDX_LIMIT
  }

  /** A hint is only ever lowered. */
  function Lowered(h: Hint, cap: nat, sawFilter: bool): Hint {
    if h.limit == 0 || cap < h.limit then Hint(cap, !sawFilter) else h
  }

  function Stamp(limit: LimitNode, offset: OffsetNode, input: Plan, h: Hints): (r: Hints)
    requires forall b :: b in Binds(input) ==> b in h
    ensures r.Keys == h.Keys && forall b :: b in h && b !in Binds(input) ==> r[b] == h[b]
  {
    FoundBelow(input, false);
    if limit.Constant? then
      match Find(input, false)
      case (None, _) => h
      case (Some(b), sawFilter) => h[b := Lowered(h[b], Cap(limit.n, offset), sawFilter)]
    else h
  }

  function Walked(op: Plan, h: Hints): (r: Hints)
    requires forall b :: b in Binds(op) ==> b in h
    ensures r.Keys == h.Keys && forall b :: b in h && b !in Binds(op) ==> r[b] == h[b]
    decreases op, 1
  {
    match op
    case AttachedScan(_) => h
    case OtherGet(_) => h
    case Projection(_, input) => Walked(input, h)
    case Filter(_, input) => Walked(input, h)
    case Limit(limit, offset, input) => Walked(input, Stamp(limit, offset, input, h))
    case Other(_, inputs) => AllWalked(inputs, h)
  }

  function AllWalked(ops: seq<Plan>, h: Hints): (r: Hints)
    requires forall b :: b in AllBinds(ops) ==> b in h
    ensures r.Keys == h.Keys && forall b :: b in h && b !in AllBinds(ops) ==> r[b] == h[b]
    decreases ops, 0
  {
    if ops == [] then h else Walked(ops[|ops| - 1], AllWalked(ops[..|ops| - 1], h))
  }

  // ----- the rewrite as it runs -----

  ghost function HintOf(b: Bind): Hint
    reads b
  {
    Hint(b.limitHint, b.limitHardCap)
  }

  ghost function Snapshot(binds: set<Bind>): Hints
    reads binds
  {
    map b | b in binds :: HintOf(b)
  }

  method FindAttachedScanBind(op: Plan, sawFilter: bool) returns (bind: Bind?, saw: bool)
    ensures Find(op, sawFilter) == (if bind == null then None else Some(bind), saw)
  {
    saw := sawFilter;
    match op {
      case AttachedScan(b) => bind := b;
      case OtherGet(_) => bind := null;
      case Projection(_, input) => bind, saw := FindAttachedScanBind(input, saw);
      case Filter(_, input) => bind, saw := FindAttachedScanBind(input, true);
      case Limit(_, _, _) => bind := null;
      case Other(_, _) => bind := null;
    }
  }

  /** The part of walk that handles one LIMIT. */
  method StampLimit(limit: LimitNode, offset: OffsetNode, input: Plan, ghost all: set<Bind>)
    requires Binds(input) <= all
    modifies Binds(input)
    ensures Snapshot(all) == Stamp(limit, offset, input, old(Snapshot(all)))
  {
    if limit.Constant? {
      var off := 0;
      if offset.ConstantOffset? {
        off := offset.n;
      }
      var cap := (limit.n + off) % IDX_LIMIT;
      FoundBelow(input, false);
      var bind, saw := FindAttachedScanBind(input, false);
      if bind != null {
        if bind.limitHint == 0 || cap < bind.limitHint {
          bind.limitHint := cap;
          bind.limitHardCap := !saw;
        }
      }
    }
  }

  method Walk(op: Plan, ghost all: set<Bind>)
    requires Binds(op) <= all
    modifies Binds(op)
    ensures Snapshot(all) == Walked(op, old(Snapshot(all)))
    decreases op, 1
  {
    hide Stamp;
    match op {
      case AttachedScan(_) =>
      case OtherGet(_) =>
      case Projection(_, input) => Walk(input, all);
      case Filter(_, input) => Walk(input, all);
      case Limit(limit, offset, input) =>
        StampLimit(limit, offset, input, all);
        Walk(input, all);
      case Other(_, inputs) =>
        WalkInputs(inputs, all);
    }
  }

  method WalkInputs(ops: seq<Plan>, ghost all: set<Bind>)
    requires AllBinds(ops) <= all
    modifies AllBinds(ops)
    ensures Snapshot(all) == AllWalked(ops, old(Snapshot(all)))
    decreases ops, 0
  {
    for i := 0 to |ops|
      invariant AllBinds(ops[..i]) <= AllBinds(ops)
      invariant Snapshot(all) == AllWalked(ops[..i], old(Snapshot(all)))
    {
      BindsOfInput(ops, i);
      BindsOfPrefix(ops, i + 1);
      Walk(ops[i], all);
      assert ops[..i + 1][..i] == ops[..i];
    }
    assert ops[..|ops|] == ops;
  }

  // ----- running a plan -----

  function Take(rows: seq<Row>, n: nat): seq<Row> {
    if n < |rows| then rows[..n] else rows
  }

  function Drop(rows: seq<Row>, n: nat): seq<Row> {
    if n < |rows| then rows[n..] else []
  }

  function Amount(limit: LimitNode, rows: nat): nat {
    match limit
    case Unset => rows
    case Constant(n) => n
    case Computed(v) => v
    case Percentage(p) => rows * p / 100
  }

  function Skipped(offset: OffsetNode): nat {
    match offset
    case NoOffset => 0
    case ConstantOffset(n) => n
    case ComputedOffset(v) => v
  }

  function LimitRows(limit: LimitNode, offset: OffsetNode, rows: seq<Row>): seq<Row> {
    Take(Drop(rows, Skipped(offset)), Amount(limit, |rows|))
  }

  function Mapped(f: Row -> Row, rows: seq<Row>): seq<Row> {
    seq(|rows|, i requires 0 <= i < |rows| => f(rows[i]))
  }

  function Selected(p: Row -> bool, rows: seq<Row>): seq<Row> {
    if rows == [] then []
    else Selected(p, rows[..|rows| - 1]) + (if p(rows[|rows| - 1]) then [rows[|rows| - 1]] else [])
  }

  /** A hint that is hard becomes a trailing TOP; any other only changes the size of the requests. */
  function ScanRows(table: seq<Row>, h: Hint): seq<Row> {
    if h.limit > 0 && h.hard then Take(table, h.limit) else table
  }

  type Tables = map<Bind, seq<Row>>

  function Run(op: Plan, h: Hints, tables: Tables): seq<Row>
    requires forall b :: b in Binds(op) ==> b in h && b in tables
    decreases op, 1
  {
    match op
    case AttachedScan(b) => ScanRows(tables[b], h[b])
    case OtherGet(rows) => rows
    case Projection(f, input) => Mapped(f, Run(input, h, tables))
    case Filter(p, input) => Selected(p, Run(input, h, tables))
    case Limit(limit, offset, input) => LimitRows(limit, offset, Run(input, h, tables))
    case Other(combine, inputs) => combine(RunAll(inputs, h, tables))
  }

  function RunAll(ops: seq<Plan>, h: Hints, tables: Tables): seq<seq<Row>>
    requires forall b :: b in AllBinds(ops) ==> b in h && b in tables
    decreases ops, 0
  {
    if ops == [] then [] else RunAll(ops[..|ops| - 1], h, tables) + [Run(ops[|ops| - 1], h, tables)]
  }
}
