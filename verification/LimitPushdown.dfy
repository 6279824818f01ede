/** LIMIT pushdown preserves every plan's result, exactly when each pushed cap covers limit and offset. */
module LimitPushdown {
  import opened Wrappers
  import opened Optimizer

  /** No scan below carries a hint yet. */
  ghost predicate NoHints(op: Plan, h: Hints) {
    forall b :: b in Binds(op) ==> b in h && h[b].limit == 0
  }

  ghost predicate Covers(op: Plan, tables: Tables) {
    forall b :: b in Binds(op) ==> b in tables
  }

  // ----- one LIMIT -----

  /** The cap is no cap at all, nothing is wanted, or it covers what the LIMIT skips and keeps. */
  predicate Enough(n: nat, offset: OffsetNode) {
    Cap(n, offset) == 0 || n == 0 || Cap(n, offset) >= n + Skipped(offset)
  }

  lemma CapKeepsLimit(n: nat, offset: OffsetNode, rows: seq<Row>)
    requires Enough(n, offset) && Cap(n, offset) > 0
    ensures LimitRows(Constant(n), offset, Take(rows, Cap(n, offset))) == LimitRows(Constant(n), offset, rows)
  {
  }

  lemma CapLosesRows(n: nat, offset: OffsetNode, rows: seq<Row>)
    requires !Enough(n, offset) && |rows| == n + Skipped(offset)
    ensures |LimitRows(Constant(n), offset, Take(rows, Cap(n, offset)))| < |LimitRows(Constant(n), offset, rows)|
  {
  }

  /** Below a LIMIT, a scan reached through projections alone gives its rows one for one. */
  lemma {:induction false} ChainRun(op: Plan, b: Bind, cap: nat, h: Hints, tables: Tables)
    requires Find(op, false) == (Some(b), false) && NoHints(op, h) && Covers(op, tables)
    ensures Binds(op) == {b}
    ensures |Run(op, h, tables)| == |tables[b]|
    ensures cap > 0 ==> Run(op, h[b := Hint(cap, true)], tables) == Take(Run(op, h, tables), cap)
  {
    match op
    case AttachedScan(_) =>
    case Projection(_, input) => ChainRun(input, b, cap, h, tables);
    case Filter(_, input) => FilterIsSeen(input);
  }

  lemma {:induction false} FilterIsSeen(op: Plan)
    ensures Find(op, true).1
  {
    match op
    case Projection(_, input) => FilterIsSeen(input);
    case Filter(_, input) => FilterIsSeen(input);
    case _ =>
  }

  /** A hint that is not hard, or is zero, changes no result. */
  lemma {:induction false} SoftHint(op: Plan, b: Bind, hint: Hint, h: Hints, tables: Tables)
    requires Find(op, false).0 == Some(b) || Find(op, true).0 == Some(b)
    requires !hint.hard || hint.limit == 0
    requires NoHints(op, h) && Covers(op, tables)
    ensures Binds(op) == {b}
    ensures Run(op, h[b := hint], tables) == Run(op, h, tables)
  {
    match op
    case AttachedScan(_) =>
    case Projection(_, input) => SoftHint(input, b, hint, h, tables);
    case Filter(_, input) => SoftHint(input, b, hint, h, tables);
  }

  /** Nothing on the way to the scan is a LIMIT, so walking on leaves the hints alone. */
  lemma {:induction false} ChainUntouched(op: Plan, sawFilter: bool, h: Hints)
    requires Find(op, sawFilter).0.Some? && forall b :: b in Binds(op) ==> b in h
    ensures Walked(op, h) == h
  {
    match op
    case AttachedScan(_) =>
    case Projection(_, input) => ChainUntouched(input, sawFilter, h);
    case Filter(_, input) => ChainUntouched(input, true, h);
  }

  /**
   * The exact condition for one pushed LIMIT: its cap changes no result, whatever the table holds,
   * if and only if the cap is enough. A sum that wraps past 64 bits, or a computed offset, is where it is not.
   */
  lemma PushedLimitIsExact(n: nat, offset: OffsetNode, input: Plan, b: Bind, h: Hints)
    requires Find(input, false) == (Some(b), false) && NoHints(input, h)
    ensures (forall table: seq<Row> ::
               RunOver(Limit(Constant(n), offset, input), Stamp(Constant(n), offset, input, h), b, table)
               == RunOver(Limit(Constant(n), offset, input), h, b, table))
            <==> Enough(n, offset)
  {
    var op := Limit(Constant(n), offset, input);
    var stamped := Stamp(Constant(n), offset, input, h);
    FoundBelow(input, false);
    ChainBinds(input, false);
    if Enough(n, offset) {
      forall table: seq<Row>
        ensures RunOver(op, stamped, b, table) == RunOver(op, h, b, table)
      {
        StampedLimit(n, offset, input, b, h, map[b := table]);
      }
    } else {
      var table: seq<Row> := seq(n + Skipped(offset), _ => []);
      ChainRun(input, b, Cap(n, offset), h, map[b := table]);
      CapLosesRows(n, offset, Run(input, h, map[b := table]));
      assert RunOver(op, stamped, b, table) != RunOver(op, h, b, table);
    }
  }

  /** The result over a single table; empty where the plan scans anything else. */
  ghost function RunOver(op: Plan, h: Hints, b: Bind, table: seq<Row>): seq<Row> {
    if Binds(op) <= {b} && b in h then Run(op, h, map[b := table]) else []
  }

  lemma StampedLimit(n: nat, offset: OffsetNode, input: Plan, b: Bind, h: Hints, tables: Tables)
    requires Find(input, false) == (Some(b), false) && NoHints(input, h) && Covers(input, tables)
    requires Enough(n, offset)
    ensures Run(Limit(Constant(n), offset, input), Stamp(Constant(n), offset, input, h), tables)
         == Run(Limit(Constant(n), offset, input), h, tables)
  {
    FoundBelow(input, false);
    var cap := Cap(n, offset);
    ChainRun(input, b, cap, h, tables);
    if cap == 0 {
      SoftHint(input, b, Hint(0, true), h, tables);
    } else {
      CapKeepsLimit(n, offset, Run(input, h, tables));
    }
  }

  // ----- whole plans -----

  /** Every LIMIT that hard-caps a scan caps it high enough. */
  ghost predicate AllEnough(op: Plan) {
    match op
    case AttachedScan(_) => true
    case OtherGet(_) => true
    case Projection(_, input) => AllEnough(input)
    case Filter(_, input) => AllEnough(input)
    case Limit(limit, offset, input) =>
      && AllEnough(input)
      && (limit.Constant? && Find(input, false).0.Some? && !Find(input, false).1 ==> Enough(limit.n, offset))
    case Other(_, inputs) => forall i :: 0 <= i < |inputs| ==> AllEnough(inputs[i])
  }

  /** A run depends on the hints of its own scans only. */
  lemma {:induction false} RunFrame(op: Plan, h: Hints, h': Hints, tables: Tables)
    requires Covers(op, tables) && forall b :: b in Binds(op) ==> b in h && b in h' && h[b] == h'[b]
    ensures Run(op, h, tables) == Run(op, h', tables)
    decreases op, 1
  {
    match op
    case AttachedScan(_) =>
    case OtherGet(_) =>
    case Projection(_, input) => RunFrame(input, h, h', tables);
    case Filter(_, input) => RunFrame(input, h, h', tables);
    case Limit(_, _, input) => RunFrame(input, h, h', tables);
    case Other(_, inputs) => RunAllFrame(inputs, h, h', tables);
  }

  lemma {:induction false} RunAllFrame(ops: seq<Plan>, h: Hints, h': Hints, tables: Tables)
    requires forall b :: b in AllBinds(ops) ==> b in tables && b in h && b in h' && h[b] == h'[b]
    ensures RunAll(ops, h, tables) == RunAll(ops, h', tables)
    decreases ops, 0
  {
    if ops != [] {
      RunAllFrame(ops[..|ops| - 1], h, h', tables);
      RunFrame(ops[|ops| - 1], h, h', tables);
    }
  }

  /** Running a plan with the hints the walk writes gives the rows it gives without them. */
  lemma {:induction false} PushdownPreserves(op: Plan, h: Hints, tables: Tables)
    requires Separate(op) && NoHints(op, h) && Covers(op, tables) && AllEnough(op)
    ensures Run(op, Walked(op, h), tables) == Run(op, h, tables)
    decreases op, 1
  {
    match op
    case AttachedScan(_) =>
    case OtherGet(_) =>
    case Projection(_, input) => PushdownPreserves(input, h, tables);
    case Filter(_, input) => PushdownPreserves(input, h, tables);
    case Limit(limit, offset, input) =>
      var (target, sawFilter) := Find(input, false);
      if limit.Constant? && target.Some? {
        FoundBelow(input, false);
        ChainUntouched(input, false, Stamp(limit, offset, input, h));
        if sawFilter {
          SoftHint(input, target.value, Hint(Cap(limit.n, offset), false), h, tables);
        } else {
          StampedLimit(limit.n, offset, input, target.value, h, tables);
        }
      } else {
        PushdownPreserves(input, h, tables);
      }
    case Other(_, inputs) => InputsPreserve(inputs, h, tables);
  }

  lemma {:induction false} InputsPreserve(ops: seq<Plan>, h: Hints, tables: Tables)
    requires AllSeparate(ops) && forall i :: 0 <= i < |ops| ==> AllEnough(ops[i])
    requires forall b :: b in AllBinds(ops) ==> b in tables && b in h && h[b].limit == 0
    ensures RunAll(ops, AllWalked(ops, h), tables) == RunAll(ops, h, tables)
    decreases ops, 0
  {
    if ops != [] {
      var front, last := ops[..|ops| - 1], ops[|ops| - 1];
      var between := AllWalked(front, h);
      InputsPreserve(front, h, tables);
      RunAllFrame(front, Walked(last, between), between, tables);
      PushdownPreserves(last, between, tables);
      RunFrame(last, between, h, tables);
    }
  }

  /** Every constant LIMIT has a constant or absent OFFSET, and the two add up without wrapping. */
  ghost predicate PlainLimits(op: Plan) {
    match op
    case AttachedScan(_) => true
    case OtherGet(_) => true
    case Projection(_, input) => PlainLimits(input)
    case Filter(_, input) => PlainLimits(input)
    case Limit(limit, offset, input) =>
      && PlainLimits(input)
      && (limit.Constant? ==> !offset.ComputedOffset? && limit.n + Skipped(offset) < 0x1_0000_0000_0000_0000)
    case Other(_, inputs) => forall i :: 0 <= i < |inputs| ==> PlainLimits(inputs[i])
  }

  lemma {:induction false} PlainIsEnough(op: Plan)
    requires PlainLimits(op)
    ensures AllEnough(op)
  {
    match op
    case AttachedScan(_) =>
    case OtherGet(_) =>
    case Projection(_, input) => PlainIsEnough(input);
    case Filter(_, input) => PlainIsEnough(input);
    case Limit(_, _, input) => PlainIsEnough(input);
    case Other(_, inputs) =>
      forall i | 0 <= i < |inputs|
        ensures AllEnough(inputs[i])
      {
        PlainIsEnough(inputs[i]);
      }
  }

  /** A computed OFFSET is treated as zero, yet the cap is set all the same: it must skip nothing. */
  lemma ComputedOffsetLosesRows(n: nat, value: nat)
    requires n < 0x1_0000_0000_0000_0000
    ensures Enough(n, ComputedOffset(value)) <==> n == 0 || value == 0
  {
  }

  /** A wrapped sum is harmless only if it wraps to zero, which is no hint, or nothing is wanted. */
  lemma WrappedSumLosesRows(n: nat, offset: nat)
    requires n < 0x1_0000_0000_0000_0000 && offset < 0x1_0000_0000_0000_0000 && n + offset >= 0x1_0000_0000_0000_0000
    ensures Enough(n, ConstantOffset(offset)) <==> n == 0 || n + offset == 0x1_0000_0000_0000_0000
  {
  }

  /** The walk as it runs: on a plan with plain LIMITs and fresh binds, its stamps change no result. */
  method OptimizeLimitPushdown(op: Plan, ghost tables: Tables)
    requires Separate(op) && Covers(op, tables) && PlainLimits(op)
    requires NoHints(op, Snapshot(Binds(op)))
    modifies Binds(op)
    ensures Snapshot(Binds(op)) == Walked(op, old(Snapshot(Binds(op))))
    ensures Run(op, Snapshot(Binds(op)), tables) == Run(op, old(Snapshot(Binds(op))), tables)
  {
    PlainIsEnough(op);
    PushdownPreserves(op, Snapshot(Binds(op)), tables);
    Walk(op, Binds(op));
  }

  // ----- which LIMIT reaches a scan -----

  /** The cap a scan is under, from the top: the nearest LIMIT, if only projections and filters lie between. */
  ghost function Reaching(op: Plan, b: Bind, above: Option<(nat, bool)>): Option<(nat, bool)>
    decreases op, 1
  {
    match op
    case AttachedScan(scan) => if scan == b then above else None
    case OtherGet(_) => None
    case Projection(_, input) => Reaching(input, b, above)
    case Filter(_, input) => Reaching(input, b, if above.Some? then Some((above.value.0, true)) else None)
    case Limit(limit, offset, input) => Reaching(input, b, if limit.Constant? then Some((Cap(limit.n, offset), false)) else None)
    case Other(_, inputs) => ReachingAny(inputs, b)
  }

  ghost function ReachingAny(ops: seq<Plan>, b: Bind): Option<(nat, bool)>
    decreases ops, 0
  {
    if ops == [] then None
    else if b in Binds(ops[|ops| - 1]) then Reaching(ops[|ops| - 1], b, None)
    else ReachingAny(ops[..|ops| - 1], b)
  }

  /** A cap from above matters to the scan that Find finds and to no other. */
  lemma {:induction false} ReachingIsFound(op: Plan, b: Bind, cap: nat, sawFilter: bool)
    ensures if Find(op, sawFilter).0 == Some(b)
            then Reaching(op, b, Some((cap, sawFilter))) == Some((cap, Find(op, sawFilter).1)) && Reaching(op, b, None) == None
            else Reaching(op, b, Some((cap, sawFilter))) == Reaching(op, b, None)
  {
    match op
    case AttachedScan(_) =>
    case OtherGet(_) =>
    case Projection(_, input) => ReachingIsFound(input, b, cap, sawFilter);
    case Filter(_, input) => ReachingIsFound(input, b, cap, true);
    case Limit(_, _, _) =>
    case Other(_, _) =>
  }

  /** The hint a scan has after the walk: that of the nearest LIMIT that reaches it, hard unless a filter intervenes. */
  function Stamped(h: Hint, reaching: Option<(nat, bool)>): Hint {
    if reaching.None? then h else Hint(reaching.value.0, !reaching.value.1)
  }

  lemma {:induction false} NearestLimitOnly(op: Plan, h: Hints, b: Bind)
    requires Separate(op) && NoHints(op, h) && b in Binds(op)
    ensures Walked(op, h)[b] == Stamped(h[b], Reaching(op, b, None))
    decreases op, 1
  {
    match op
    case AttachedScan(_) =>
    case Projection(_, input) => NearestLimitOnly(input, h, b);
    case Filter(_, input) => NearestLimitOnly(input, h, b);
    case Limit(limit, offset, input) =>
      if limit.Constant? {
        ReachingIsFound(input, b, Cap(limit.n, offset), false);
      }
      if limit.Constant? && Find(input, false).0.Some? {
        FoundBelow(input, false);
        ChainUntouched(input, false, Stamp(limit, offset, input, h));
        ChainBinds(input, false);
      } else {
        NearestLimitOnly(input, h, b);
      }
    case Other(_, inputs) => NearestLimitOfInput(inputs, h, b);
  }

  lemma {:induction false} ChainBinds(op: Plan, sawFilter: bool)
    requires Find(op, sawFilter).0.Some?
    ensures Binds(op) == {Find(op, sawFilter).0.value}
  {
    match op
    case AttachedScan(_) =>
    case Projection(_, input) => ChainBinds(input, sawFilter);
    case Filter(_, input) => ChainBinds(input, true);
  }

  lemma {:induction false} NearestLimitOfInput(ops: seq<Plan>, h: Hints, b: Bind)
    requires AllSeparate(ops) && b in AllBinds(ops)
    requires forall c :: c in AllBinds(ops) ==> c in h && h[c].limit == 0
    ensures AllWalked(ops, h)[b] == Stamped(h[b], ReachingAny(ops, b))
    decreases ops, 0
  {
    var front, last := ops[..|ops| - 1], ops[|ops| - 1];
    if b in Binds(last) {
      NearestLimitOnly(last, AllWalked(front, h), b);
    } else {
      NearestLimitOfInput(front, h, b);
    }
  }
}
