/** The runtime settings that shards cache: stored first, then published by bumping a generation counter. */
module Generation {
  import opened Core

  // ----- the settings -----

  /** The eight collection-encoding thresholds, by their registered names. */
  const THRESHOLDS: seq<string> := [
    "hash-max-listpack-entries", "hash-max-listpack-value", "list-max-listpack-size", "set-max-intset-entries",
    "set-max-listpack-entries", "set-max-listpack-value", "zset-max-listpack-entries", "zset-max-listpack-value"]

  /** The one threshold kept signed. */
  const LIST_SIZE: nat := 2

  datatype Value = Name(name: string) | Number(n: int)

  /** Cell 0 is the eviction policy's name, cell `i + 1` threshold `i`. */
  const CELLS: nat := 9

  /** A counter that wraps at 64 bits. */
  function Bumped(generation: nat): nat { (generation + 1) % U64_LIMIT }

  /** What a cell of 64 unsigned bits keeps of a signed value. */
  function AsU64(value: int): int { if value < 0 then value + U64_LIMIT else value }

  // ----- setters and shards, one atomic step at a time -----

  datatype Phase = Idle | Reloading(loaded: nat, got: seq<Value>)

  /** What a shard has applied, the generation it last caught up with, and where it is in a reload. */
  datatype Shard = Shard(held: seq<Value>, seen: nat, phase: Phase)

  /** `pending`: setters that have stored into a cell and not bumped yet. `bumps` counts every bump ever made. */
  datatype Sys = Sys(cells: seq<Value>, generation: nat, bumps: nat, pending: map<nat, nat>, shards: map<nat, Shard>)

  datatype Step =
    | Store(setter: nat, cell: nat, value: Value)
    | Bump(setter: nat)
    | Load(shard: nat)
    | Copy(shard: nat)
    | Finish(shard: nat)

  ghost predicate Shaped(a: Sys)
  {
    && |a.cells| == CELLS
    && forall s :: s in a.shards ==>
         && |a.shards[s].held| == CELLS
         && (a.shards[s].phase.Reloading? ==> |a.shards[s].phase.got| <= CELLS)
  }

  ghost predicate Next(a: Sys, b: Sys, step: Step)
    requires Shaped(a)
  {
    match step
    case Store(t, i, v) =>
      t !in a.pending && i < CELLS && b == a.(cells := a.cells[i := v], pending := a.pending[t := i])
    case Bump(t) =>
      && t in a.pending
      && b == a.(generation := Bumped(a.generation), bumps := a.bumps + 1, pending := a.pending - {t})
    case Load(s) =>
      && s in a.shards && a.shards[s].phase.Idle?
      && b == a.(shards := a.shards[s := OnLoad(a.shards[s], a.generation)])
    case Copy(s) =>
      && s in a.shards && a.shards[s].phase.Reloading? && |a.shards[s].phase.got| < CELLS
      && b == a.(shards := a.shards[s := OnRead(a.shards[s], a.cells[|a.shards[s].phase.got|])])
    case Finish(s) =>
      && s in a.shards && a.shards[s].phase.Reloading? && |a.shards[s].phase.got| == CELLS
      && b == a.(shards := a.shards[s := OnFinish(a.shards[s])])
  }

  /** The counter is loaded; a shard that has seen this value already has nothing to do. */
  function OnLoad(s: Shard, generation: nat): Shard
  {
    if s.seen == generation then s else s.(phase := Reloading(generation, []))
  }

  /** One cell is read. The policy's name takes effect as soon as it is; the thresholds together, at the end. */
  function OnRead(s: Shard, v: Value): Shard
    requires s.phase.Reloading? && s.held != []
  {
    s.(held := if s.phase.got == [] then s.held[0 := v] else s.held,
       phase := Reloading(s.phase.loaded, s.phase.got + [v]))
  }

  function OnFinish(s: Shard): Shard
    requires s.phase.Reloading?
  {
    Shard(s.phase.got, s.phase.loaded, Idle)
  }

  ghost predicate Initial(a: Sys)
  {
    && Shaped(a) && a.generation == 0 && a.bumps == 0 && a.pending == map[]
    && forall s :: s in a.shards ==> a.shards[s] == Shard(a.cells, 0, Idle)
  }

  ghost predicate IsRun(states: seq<Sys>, steps: seq<Step>)
  {
    && |states| == |steps| + 1
    && forall i :: 0 <= i < |steps| ==> Shaped(states[i]) && Next(states[i], states[i + 1], steps[i])
  }

  // ----- what every step keeps -----

  ghost predicate Unpublished(a: Sys, i: nat) { exists t :: t in a.pending && a.pending[t] == i }

  /** A copy `v` of cell `i` taken no later than generation `g`: right, outdated, or about to be. */
  ghost predicate Excused(a: Sys, g: nat, i: nat, v: Value)
    requires |a.cells| == CELLS && i < CELLS
  {
    v == a.cells[i] || g < a.bumps || Unpublished(a, i)
  }

  ghost predicate ShardOk(a: Sys, s: Shard)
    requires |a.cells| == CELLS && |s.held| == CELLS && (s.phase.Reloading? ==> |s.phase.got| <= CELLS)
  {
    && s.seen <= a.bumps
    && match s.phase
       case Idle => forall i :: 0 <= i < CELLS ==> Excused(a, s.seen, i, s.held[i])
       case Reloading(loaded, got) =>
         && s.seen < loaded <= a.bumps
         && forall i :: 0 <= i < |got| ==> Excused(a, loaded, i, got[i])
  }

  /** Nothing is claimed of runs long enough for the counter to come round again. */
  ghost predicate Inv(a: Sys)
  {
    && Shaped(a)
    && (a.bumps < U64_LIMIT ==> a.generation == a.bumps && forall s :: s in a.shards ==> ShardOk(a, a.shards[s]))
  }

  /** A store or a bump leaves every copy excused. */
  lemma StillExcused(a: Sys, b: Sys, g: nat, i: nat, v: Value, step: Step)
    requires Shaped(a) && (step.Store? || step.Bump?) && Next(a, b, step)
    requires g <= a.bumps && i < CELLS && Excused(a, g, i, v)
    ensures Excused(b, g, i, v)
  {
    match step {
      case Store(t, j, _) =>
        if i == j {
          assert t in b.pending && b.pending[t] == i;
        } else if Unpublished(a, i) {
          var u :| u in a.pending && a.pending[u] == i;
          assert u in b.pending && b.pending[u] == i;
        }
      case Bump(_) =>
    }
  }

  lemma NextKeepsInv(a: Sys, b: Sys, step: Step)
    requires Inv(a) && Next(a, b, step)
    ensures Inv(b)
  {
    hide Excused;
    if b.bumps < U64_LIMIT {
      forall s | s in b.shards ensures ShardOk(b, b.shards[s]) {
        assert s in a.shards && ShardOk(a, a.shards[s]);
        ShardStep(a, b, step, s);
      }
    }
  }

  lemma ShardStep(a: Sys, b: Sys, step: Step, s: nat)
    requires Shaped(a) && Next(a, b, step) && s in a.shards && ShardOk(a, a.shards[s]) && a.generation == a.bumps
    ensures Shaped(b) && s in b.shards && ShardOk(b, b.shards[s])
  {
    if step.Store? || step.Bump? {
      hide Excused;
      var x := a.shards[s];
      if x.phase.Idle? {
        forall i | 0 <= i < CELLS ensures Excused(b, x.seen, i, x.held[i]) {
          StillExcused(a, b, x.seen, i, x.held[i], step);
        }
      } else {
        forall i | 0 <= i < |x.phase.got| ensures Excused(b, x.phase.loaded, i, x.phase.got[i]) {
          StillExcused(a, b, x.phase.loaded, i, x.phase.got[i], step);
        }
      }
    }
  }

  lemma {:induction false} RunKeepsInv(states: seq<Sys>, steps: seq<Step>, n: nat)
    requires IsRun(states, steps) && Initial(states[0]) && n < |states|
    ensures Inv(states[n])
    decreases n
  {
    hide Inv, Next;
    if n == 0 {
      InitialInv(states[0]);
    } else {
      RunKeepsInv(states, steps, n - 1);
      NextKeepsInv(states[n - 1], states[n - 1 + 1], steps[n - 1]);
    }
  }

  lemma InitialInv(a: Sys)
    requires Initial(a)
    ensures Inv(a)
  {
  }

  /** A shard caught up with the counter, while no setter is between store and bump, holds every current value. */
  lemma CaughtUpIsCurrent(states: seq<Sys>, steps: seq<Step>, n: nat, s: nat)
    requires IsRun(states, steps) && Initial(states[0]) && n < |states|
    requires states[n].bumps < U64_LIMIT && states[n].pending == map[]
    requires s in states[n].shards && states[n].shards[s].seen == states[n].generation
    ensures states[n].shards[s].held == states[n].cells
  {
    hide Next;
    RunKeepsInv(states, steps, n);
    assert ShardOk(states[n], states[n].shards[s]);
  }

  /** Cell by cell: a caught-up shard is wrong only about cells some setter has stored and not published. */
  lemma CaughtUpButForPending(states: seq<Sys>, steps: seq<Step>, n: nat, s: nat, i: nat)
    requires IsRun(states, steps) && Initial(states[0]) && n < |states|
    requires states[n].bumps < U64_LIMIT && i < CELLS
    requires s in states[n].shards && states[n].shards[s].seen == states[n].generation
    ensures |states[n].cells| == |states[n].shards[s].held| == CELLS
    ensures states[n].shards[s].held[i] == states[n].cells[i] || Unpublished(states[n], i)
  {
    hide Next;
    RunKeepsInv(states, steps, n);
    assert ShardOk(states[n], states[n].shards[s]);
  }

  /** During a reload the name takes effect as soon as it is read, the thresholds all together at the end. */
  lemma HeldDuringReload(a: Sys, b: Sys, step: Step, s: nat)
    requires Shaped(a) && Next(a, b, step) && s in a.shards
    ensures s in b.shards
    ensures b.shards[s].held ==
      if step == Copy(s) && a.shards[s].phase.got == [] then a.shards[s].held[0 := a.cells[0]]
      else if step == Finish(s) then a.shards[s].phase.got
      else a.shards[s].held
  {
  }

  // ----- one command of lag -----

  ghost function Reload(a: Sys, s: nat, k: nat): Sys
    requires Shaped(a) && s in a.shards && k <= CELLS
  {
    var x := a.shards[s];
    var held := if k == 0 then x.held else x.held[0 := a.cells[0]];
    a.(shards := a.shards[s := Shard(held, x.seen, Reloading(a.generation, a.cells[..k]))])
  }

  /** A reload in which nothing else moves copies the cells one by one. */
  lemma ReloadSteps(a: Sys, s: nat, k: nat)
    requires Shaped(a) && s in a.shards && k < CELLS
    ensures Shaped(Reload(a, s, k)) && Next(Reload(a, s, k), Reload(a, s, k + 1), Copy(s))
  {
    var b := Reload(a, s, k);
    assert a.cells[..k] + [a.cells[k]] == a.cells[..k + 1];
    var x := a.shards[s];
    assert k > 0 ==> x.held[0 := a.cells[0]] == b.shards[s].held;
    assert OnRead(b.shards[s], a.cells[k]) == Reload(a, s, k + 1).shards[s];
    assert b.shards[s := OnRead(b.shards[s], a.cells[k])] == Reload(a, s, k + 1).shards;
  }

  /** The check one command makes, run without interruption, ends with every setting current. */
  lemma CommandCatchesUp(a: Sys, s: nat) returns (states: seq<Sys>, steps: seq<Step>)
    requires Inv(a) && a.bumps < U64_LIMIT && a.pending == map[] && s in a.shards && a.shards[s].phase.Idle?
    ensures IsRun(states, steps) && states[0] == a
    ensures var end := states[|states| - 1];
            end.cells == a.cells && s in end.shards && end.shards[s] == Shard(a.cells, a.generation, Idle)
  {
    hide Reload;
    assert ShardOk(a, a.shards[s]);
    if a.shards[s].seen == a.generation {
      states, steps := [a], [];
    } else {
      ReloadEnds(a, s);
      states, steps := [a, Reload(a, s, 0)], [Load(s)];
      for k := 0 to CELLS
        invariant IsRun(states, steps) && states[0] == a && states[|states| - 1] == Reload(a, s, k)
      {
        ReloadSteps(a, s, k);
        states, steps := states + [Reload(a, s, k + 1)], steps + [Copy(s)];
      }
      var end := a.(shards := a.shards[s := Shard(a.cells, a.generation, Idle)]);
      states, steps := states + [end], steps + [Finish(s)];
    }
  }

  lemma ReloadEnds(a: Sys, s: nat)
    requires Shaped(a) && s in a.shards && a.shards[s].phase.Idle? && a.shards[s].seen != a.generation
    ensures Next(a, Reload(a, s, 0), Load(s)) && Shaped(Reload(a, s, CELLS))
    ensures Next(Reload(a, s, CELLS), a.(shards := a.shards[s := Shard(a.cells, a.generation, Idle)]), Finish(s))
  {
    assert a.cells[..0] == [] && a.cells[..CELLS] == a.cells;
    var b := Reload(a, s, CELLS);
    var end := Shard(a.cells, a.generation, Idle);
    assert b.shards[s := end] == a.shards[s := end];
  }

  // ----- the overlay, as it runs: its state is the list of its atomic writes -----

  datatype Op = Put(cell: nat, value: Value) | Tick

  function CellsAfter(boot: seq<Value>, ops: seq<Op>): (r: seq<Value>)
    ensures |r| == |boot|
  {
    if ops == [] then boot
    else
      var before, last := CellsAfter(boot, ops[..|ops| - 1]), ops[|ops| - 1];
      if last.Put? && last.cell < |boot| then before[last.cell := last.value] else before
  }

  function GenerationAfter(ops: seq<Op>): nat
  {
    if ops == [] then 0
    else
      var before := GenerationAfter(ops[..|ops| - 1]);
      if ops[|ops| - 1].Tick? then Bumped(before) else before
  }

  /** Which threshold a setting name means. */
  function ThresholdIndex(name: string): (r: Option<nat>)
    ensures r.Some? ==> r.value < |THRESHOLDS| && THRESHOLDS[r.value] == name
    ensures r.None? ==> name !in THRESHOLDS
  {
    if name == THRESHOLDS[0] then Some(0)
    else if name == THRESHOLDS[1] then Some(1)
    else if name == THRESHOLDS[2] then Some(2)
    else if name == THRESHOLDS[3] then Some(3)
    else if name == THRESHOLDS[4] then Some(4)
    else if name == THRESHOLDS[5] then Some(5)
    else if name == THRESHOLDS[6] then Some(6)
    else if name == THRESHOLDS[7] then Some(7)
    else None
  }

  /** What a threshold cell keeps of a value: all are unsigned but the list size. */
  function Kept(i: nat, value: int): Value { Number(if i == LIST_SIZE then value else AsU64(value)) }

  /** One call of a setter: a write into one cell and then a bump, and what that makes of the memory. */
  ghost predicate Publishes(boot: seq<Value>, before: seq<Op>, after: seq<Op>, cell: nat, value: Value)
  {
    && after == before + [Put(cell, value), Tick]
    && (cell < |boot| ==> CellsAfter(boot, after) == CellsAfter(boot, before)[cell := value])
    && GenerationAfter(after) == (GenerationAfter(before) + 1) % 0x1_0000_0000_0000_0000
  }

  class RuntimeConfig {
    const boot: seq<Value>
    var ops: seq<Op>

    function Cells(): (r: seq<Value>)
      reads this
      ensures |r| == |boot|
    {
      CellsAfter(boot, ops)
    }

    function Generation(): nat
      reads this
    {
      GenerationAfter(ops)
    }

    constructor (boot: seq<Value>)
      ensures this.boot == boot && ops == []
    {
      this.boot, ops := boot, [];
    }

    /** One write of the name, then one bump, in this order; the new generation is returned. */
    method SetPolicyName(name: string) returns (published: nat)
      modifies this
      ensures Publishes(boot, old(ops), ops, 0, Name(name)) && published == Generation()
    {
      hide CellsAfter, GenerationAfter;
      WriteThenBump(boot, ops, 0, Name(name));
      ops := ops + [Put(0, Name(name))];
      ops := ops + [Tick];
      assert ops == old(ops) + [Put(0, Name(name)), Tick];
      published := Generation();
    }

    /**
     One write of the named threshold, then one bump, in this order; an unknown name does nothing. Seven of the eight
     are kept in 64 unsigned bits, where a negative value becomes the one congruent to it; the list size stays signed.
    */
    method SetEncodingThreshold(name: string, value: int) returns (ok: bool)
      requires -0x8000_0000_0000_0000 <= value < 0x8000_0000_0000_0000
      modifies this
      ensures !ok ==> ops == old(ops)
      ensures ok <==> name in {
        "hash-max-listpack-entries", "hash-max-listpack-value", "list-max-listpack-size", "set-max-intset-entries",
        "set-max-listpack-entries", "set-max-listpack-value", "zset-max-listpack-entries", "zset-max-listpack-value"}
      ensures var n := if value < 0 then value + 0x1_0000_0000_0000_0000 else value;
        && (name == "hash-max-listpack-entries" ==> Publishes(boot, old(ops), ops, 1, Number(n)))
        && (name == "hash-max-listpack-value" ==> Publishes(boot, old(ops), ops, 2, Number(n)))
        && (name == "list-max-listpack-size" ==> Publishes(boot, old(ops), ops, 3, Number(value)))
        && (name == "set-max-intset-entries" ==> Publishes(boot, old(ops), ops, 4, Number(n)))
        && (name == "set-max-listpack-entries" ==> Publishes(boot, old(ops), ops, 5, Number(n)))
        && (name == "set-max-listpack-value" ==> Publishes(boot, old(ops), ops, 6, Number(n)))
        && (name == "zset-max-listpack-entries" ==> Publishes(boot, old(ops), ops, 7, Number(n)))
        && (name == "zset-max-listpack-value" ==> Publishes(boot, old(ops), ops, 8, Number(n)))
    {
      hide CellsAfter, GenerationAfter;
      var index := ThresholdIndex(name);
      if index.None? {
        return false;
      }
      NamesDiffer();
      ghost var cell, kept := index.value + 1, Kept(index.value, value);
      WriteThenBump(boot, ops, cell, kept);
      ops := ops + [Put(index.value + 1, Kept(index.value, value))];
      ops := ops + [Tick];
      assert ops == old(ops) + [Put(cell, kept), Tick];
      ok := true;
    }
  }

  lemma WriteThenBump(boot: seq<Value>, ops: seq<Op>, cell: nat, value: Value)
    ensures Publishes(boot, ops, ops + [Put(cell, value), Tick], cell, value)
  {
    hide CellsAfter, GenerationAfter;
    var stored := ops + [Put(cell, value)];
    CellsAppended(boot, ops, Put(cell, value));
    CellsAppended(boot, stored, Tick);
    GenerationAppended(ops, Put(cell, value));
    GenerationAppended(stored, Tick);
    assert ops + [Put(cell, value), Tick] == stored + [Tick];
  }

  lemma CellsAppended(boot: seq<Value>, ops: seq<Op>, op: Op)
    ensures var before, after := CellsAfter(boot, ops), CellsAfter(boot, ops + [op]);
      after == if op.Put? && op.cell < |boot| then before[op.cell := op.value] else before
  {
    assert (ops + [op])[..|ops|] == ops;
  }

  lemma GenerationAppended(ops: seq<Op>, op: Op)
    ensures var before, after := GenerationAfter(ops), GenerationAfter(ops + [op]);
      after == if op.Tick? then Bumped(before) else before
  {
    hide Bumped;
    assert (ops + [op])[..|ops|] == ops;
  }

  lemma NamesDiffer()
    ensures forall i, j :: 0 <= i < j < |THRESHOLDS| ==> THRESHOLDS[i] != THRESHOLDS[j]
  {
  }

  // ----- setters in a run are calls of those methods -----

  ghost function OpsOf(steps: seq<Step>): seq<Op>
  {
    if steps == [] then []
    else
      var before := OpsOf(steps[..|steps| - 1]);
      match steps[|steps| - 1]
      case Store(_, i, v) => before + [Put(i, v)]
      case Bump(_) => before + [Tick]
      case _ => before
  }

  /** In every run the shared memory is what those writes, in that order, make of the boot values. */
  lemma {:induction false} MemoryIsItsWrites(states: seq<Sys>, steps: seq<Step>, n: nat)
    requires IsRun(states, steps) && Initial(states[0]) && n < |states|
    ensures states[n].cells == CellsAfter(states[0].cells, OpsOf(steps[..n]))
    ensures states[n].generation == GenerationAfter(OpsOf(steps[..n]))
    decreases n
  {
    if n > 0 {
      MemoryIsItsWrites(states, steps, n - 1);
      assert Next(states[n - 1], states[n - 1 + 1], steps[n - 1]);
      assert steps[..n][..n - 1] == steps[..n - 1];
      var before := OpsOf(steps[..n - 1]);
      assert forall op :: (before + [op])[..|before + [op]| - 1] == before;
    }
  }

  /** The steps of one setter, in order. */
  ghost function StepsOf(steps: seq<Step>, t: nat): seq<Step>
  {
    if steps == [] then []
    else
      var before, last := StepsOf(steps[..|steps| - 1], t), steps[|steps| - 1];
      if (last.Store? || last.Bump?) && last.setter == t then before + [last] else before
  }

  /** Whole calls, each a write and then a bump; the last one perhaps only begun. */
  ghost predicate AreCalls(w: seq<Step>)
  {
    forall k :: 0 <= k < |w| ==> if k % 2 == 0 then w[k].Store? && w[k].cell < CELLS else w[k].Bump?
  }

  ghost predicate Halfway(w: seq<Step>) { |w| % 2 == 1 }

  lemma CallsGoOn(a: Sys, b: Sys, step: Step, t: nat, w: seq<Step>)
    requires Shaped(a) && Next(a, b, step) && AreCalls(w) && (t in a.pending <==> Halfway(w))
    ensures var v := if (step.Store? || step.Bump?) && step.setter == t then w + [step] else w;
      AreCalls(v) && (t in b.pending <==> Halfway(v))
  {
  }

  /** In every run each setter does nothing but make calls, and is pending exactly while one is half done. */
  lemma {:induction false} SettersMakeCalls(states: seq<Sys>, steps: seq<Step>, n: nat, t: nat)
    requires IsRun(states, steps) && Initial(states[0]) && n < |states|
    ensures AreCalls(StepsOf(steps[..n], t))
    ensures t in states[n].pending <==> Halfway(StepsOf(steps[..n], t))
    decreases n
  {
    if n > 0 {
      hide Next, AreCalls, Halfway, Shaped;
      SettersMakeCalls(states, steps, n - 1, t);
      assert steps[..n][..n - 1] == steps[..n - 1];
      CallsGoOn(states[n - 1], states[n - 1 + 1], steps[n - 1], t, StepsOf(steps[..n - 1], t));
    }
  }

  ghost predicate OnlySetters(steps: seq<Step>) { forall i :: 0 <= i < |steps| ==> steps[i].Store? || steps[i].Bump? }

  /** The next step of some setter's calls is one the system can take. */
  lemma CallStep(now: Sys, front: seq<Step>, steps: seq<Step>) returns (next: Sys)
    requires Shaped(now) && steps != [] && front == steps[..|steps| - 1] && OnlySetters(steps)
    requires forall t :: t in now.pending <==> Halfway(StepsOf(front, t))
    requires AreCalls(StepsOf(steps, steps[|steps| - 1].setter))
    ensures Shaped(next) && Next(now, next, steps[|steps| - 1]) && next.shards == now.shards
    ensures forall t :: t in next.pending <==> Halfway(StepsOf(steps, t))
  {
    var last := steps[|steps| - 1];
    var w, before := StepsOf(steps, last.setter), StepsOf(front, last.setter);
    assert w == before + [last] && w[|before|] == last;
    assert last.setter in now.pending <==> Halfway(before);
    next := if last.Store? then now.(cells := now.cells[last.cell := last.value],
                                     pending := now.pending[last.setter := last.cell])
            else now.(generation := Bumped(now.generation), bumps := now.bumps + 1,
                      pending := now.pending - {last.setter});
    forall t ensures t in next.pending <==> Halfway(StepsOf(steps, t)) {
      if t != last.setter {
        assert StepsOf(steps, t) == StepsOf(front, t);
      }
    }
  }

  // ----- a shard's check, as it runs: its state is the list of what it has loaded and read -----

  datatype ShardOp = Loaded(generation: nat) | Read(value: Value) | Finished

  function ShardAfter(boot: Shard, trace: seq<ShardOp>): Shard
  {
    if trace == [] then boot
    else
      var before := ShardAfter(boot, trace[..|trace| - 1]);
      match trace[|trace| - 1]
      case Loaded(g) => OnLoad(before, g)
      case Read(v) => if before.phase.Reloading? && before.held != [] then OnRead(before, v) else before
      case Finished => if before.phase.Reloading? then OnFinish(before) else before
  }

  function Reads(cells: seq<Value>, k: nat): (r: seq<ShardOp>)
    requires k <= |cells|
    ensures |r| == k
  {
    seq(k, i requires 0 <= i < k => Read(cells[i]))
  }

  class ShardCache {
    const boot: Shard
    var trace: seq<ShardOp>

    function Now(): Shard
      reads this
    {
      ShardAfter(boot, trace)
    }

    constructor (held: seq<Value>)
      ensures boot == Shard(held, 0, Idle) && trace == []
    {
      boot, trace := Shard(held, 0, Idle), [];
    }

    /**
     The per-command check: one load of the counter and nothing else while it stands still; when it has moved,
     the name, then the thresholds in order, and only then is the new generation taken as seen.
    */
    method MaybeHotSwap(config: RuntimeConfig)
      requires |config.boot| == CELLS && Now().phase.Idle? && |Now().held| == CELLS
      modifies this
      ensures old(Now()).seen == config.Generation() ==> trace == old(trace) + [Loaded(config.Generation())]
      ensures old(Now()).seen != config.Generation() ==>
        trace == old(trace) + [Loaded(config.Generation())] + Reads(config.Cells(), CELLS) + [Finished]
      ensures old(Now()).seen == config.Generation() ==> Now() == old(Now())
      ensures old(Now()).seen != config.Generation() ==> Now() == Shard(config.Cells(), config.Generation(), Idle)
    {
      var current, seen := config.Generation(), Now().seen;
      ghost var before := trace;
      trace := trace + [Loaded(current)];
      assert trace[..|trace| - 1] == before;
      if current != seen {
        var cells := config.Cells();
        var loaded := trace;
        trace := trace + [Read(cells[0])];
        trace := trace + [Read(cells[1]), Read(cells[2]), Read(cells[3]), Read(cells[4]),
                          Read(cells[5]), Read(cells[6]), Read(cells[7]), Read(cells[8])];
        assert trace == loaded + Reads(cells, CELLS);
        ReadsCollect(boot, loaded, cells, CELLS);
        assert cells[..CELLS] == cells;
        ghost var read := trace;
        trace := trace + [Finished];
        assert trace[..|trace| - 1] == read;
      }
    }
  }

  lemma {:induction false} ReadsCollect(boot: Shard, trace: seq<ShardOp>, cells: seq<Value>, k: nat)
    requires k <= |cells| && var s := ShardAfter(boot, trace); s.phase.Reloading? && s.phase.got == [] && s.held != []
    ensures var s, r := ShardAfter(boot, trace), ShardAfter(boot, trace + Reads(cells, k));
      r.phase == Reloading(s.phase.loaded, cells[..k]) && r.seen == s.seen && r.held != []
    decreases k
  {
    hide ShardAfter;
    if k == 0 {
      assert trace + Reads(cells, 0) == trace;
    } else {
      ReadsCollect(boot, trace, cells, k - 1);
      var before := trace + Reads(cells, k - 1);
      ReadAppended(boot, before, cells[k - 1]);
      assert trace + Reads(cells, k) == before + [Read(cells[k - 1])];
      assert cells[..k - 1] + [cells[k - 1]] == cells[..k];
    }
  }

  lemma ReadAppended(boot: Shard, trace: seq<ShardOp>, v: Value)
    requires var s := ShardAfter(boot, trace); s.phase.Reloading? && s.held != []
    ensures ShardAfter(boot, trace + [Read(v)]) == OnRead(ShardAfter(boot, trace), v)
  {
    hide OnRead;
    assert (trace + [Read(v)])[..|trace|] == trace;
  }

  lemma LoadAppended(boot: Shard, trace: seq<ShardOp>, g: nat)
    ensures ShardAfter(boot, trace + [Loaded(g)]) == OnLoad(ShardAfter(boot, trace), g)
  {
    hide OnLoad;
    assert (trace + [Loaded(g)])[..|trace|] == trace;
  }

  lemma FinishAppended(boot: Shard, trace: seq<ShardOp>)
    requires ShardAfter(boot, trace).phase.Reloading?
    ensures ShardAfter(boot, trace + [Finished]) == OnFinish(ShardAfter(boot, trace))
  {
    hide OnFinish;
    assert (trace + [Finished])[..|trace|] == trace;
  }

  // ----- shards in a run are such caches -----

  /** What a step is to shard `s`. */
  ghost function OpFor(a: Sys, step: Step, s: nat): seq<ShardOp>
    requires Shaped(a) && (step.Copy? ==> Reading(a, step.shard))
  {
    match step
    case Load(k) => if k == s then [Loaded(a.generation)] else []
    case Copy(k) => if k == s then [Read(a.cells[|a.shards[k].phase.got|])] else []
    case Finish(k) => if k == s then [Finished] else []
    case _ => []
  }

  ghost predicate Reading(a: Sys, s: nat)
  {
    s in a.shards && a.shards[s].phase.Reloading? && |a.shards[s].phase.got| < CELLS
  }

  /** What shard `s` has loaded and read in a run, in order. */
  ghost function TraceOf(states: seq<Sys>, steps: seq<Step>, s: nat, n: nat): seq<ShardOp>
    requires IsRun(states, steps) && n <= |steps|
  {
    if n == 0 then []
    else
      assert Next(states[n - 1], states[n - 1 + 1], steps[n - 1]);
      TraceOf(states, steps, s, n - 1) + OpFor(states[n - 1], steps[n - 1], s)
  }

  lemma TraceStep(a: Sys, b: Sys, step: Step, s: nat, boot: Shard, trace: seq<ShardOp>)
    requires Shaped(a) && Next(a, b, step) && s in a.shards && a.shards[s] == ShardAfter(boot, trace)
    ensures s in b.shards && b.shards[s] == ShardAfter(boot, trace + OpFor(a, step, s))
  {
    hide ShardAfter, OnLoad, OnRead, OnFinish;
    if OpFor(a, step, s) == [] {
      assert trace + OpFor(a, step, s) == trace;
    } else {
      match step {
        case Load(_) => LoadAppended(boot, trace, a.generation);
        case Copy(_) => ReadAppended(boot, trace, a.cells[|a.shards[s].phase.got|]);
        case Finish(_) => FinishAppended(boot, trace);
      }
    }
  }

  /** In every run each shard is what its own loads and reads make of it. */
  lemma {:induction false} ShardIsItsTrace(states: seq<Sys>, steps: seq<Step>, s: nat, n: nat)
    requires IsRun(states, steps) && Initial(states[0]) && n <= |steps| && s in states[0].shards
    ensures s in states[n].shards
    ensures states[n].shards[s] == ShardAfter(states[0].shards[s], TraceOf(states, steps, s, n))
    decreases n
  {
    hide Next, ShardAfter, OpFor, Shaped;
    if n == 0 {
      NothingTraced(states[0].shards[s]);
    } else {
      ShardIsItsTrace(states, steps, s, n - 1);
      var trace := TraceOf(states, steps, s, n - 1);
      TraceStep(states[n - 1], states[n - 1 + 1], steps[n - 1], s, states[0].shards[s], trace);
    }
  }

  lemma NothingTraced(boot: Shard)
    ensures ShardAfter(boot, []) == boot
  {
  }

  // ----- shards in a run make whole checks -----

  /** One check of a shard in state `s`, or the beginning of one: what `MaybeHotSwap` does. */
  ghost predicate IsCheck(s: Shard, w: seq<ShardOp>)
  {
    && w != [] && w[0].Loaded?
    && if w[0].generation == s.seen then |w| == 1
       else |w| <= CELLS + 2 && forall i :: 1 <= i < |w| ==> if i <= CELLS then w[i].Read? else w[i].Finished?
  }

  ghost predicate IsWholeCheck(s: Shard, w: seq<ShardOp>)
  {
    IsCheck(s, w) && (w[0].generation == s.seen || |w| == CELLS + 2)
  }

  ghost predicate AreWholeChecks(boot: Shard, trace: seq<ShardOp>)
    decreases |trace|
  {
    trace == [] || exists k :: 0 <= k < |trace| && EndsInWholeCheck(boot, trace, k)
  }

  ghost predicate EndsInWholeCheck(boot: Shard, trace: seq<ShardOp>, k: nat)
    requires k < |trace|
    decreases |trace|, 0
  {
    AreWholeChecks(boot, trace[..k]) && IsWholeCheck(ShardAfter(boot, trace[..k]), trace[k..])
  }

  /** Whole checks up to `k`, and from there on, while the shard is reloading, the beginning of one more. */
  ghost predicate AreChecks(boot: Shard, trace: seq<ShardOp>, k: nat)
  {
    && k <= |trace| && AreWholeChecks(boot, trace[..k])
    && var was, now := ShardAfter(boot, trace[..k]), ShardAfter(boot, trace);
    if now.phase.Idle? then k == |trace|
    else
      && IsCheck(was, trace[k..]) && trace[k].generation != was.seen == now.seen
      && |trace| - k == 1 + |now.phase.got|
  }

  /** The operation that is due next. */
  ghost predicate IsDue(s: Shard, op: ShardOp)
  {
    match op
    case Loaded(_) => s.phase.Idle?
    case Read(_) => s.phase.Reloading? && |s.phase.got| < CELLS && s.held != []
    case Finished => s.phase.Reloading? && |s.phase.got| == CELLS
  }

  lemma CheckGoesOn(boot: Shard, trace: seq<ShardOp>, k: nat, op: ShardOp) returns (m: nat)
    requires AreChecks(boot, trace, k) && IsDue(ShardAfter(boot, trace), op)
    ensures AreChecks(boot, trace + [op], m)
  {
    hide AreWholeChecks;
    var longer := trace + [op];
    assert longer[..|trace|] == trace && longer[..k] == trace[..k] && longer[k..] == trace[k..] + [op];
    var was := ShardAfter(boot, trace[..k]);
    if op.Loaded? {
      assert trace[..k] == trace && trace[k..] == [];
      if op.generation == was.seen {
        CheckEnds(boot, longer, k);
        m := |longer|;
      } else {
        m := k;
      }
    } else if op.Finished? {
      CheckEnds(boot, longer, k);
      m := |longer|;
    } else {
      m := k;
    }
  }

  lemma CheckEnds(boot: Shard, trace: seq<ShardOp>, k: nat)
    requires k < |trace| && AreWholeChecks(boot, trace[..k])
    requires IsWholeCheck(ShardAfter(boot, trace[..k]), trace[k..])
    ensures AreWholeChecks(boot, trace) && trace[..|trace|] == trace
  {
    assert EndsInWholeCheck(boot, trace, k);
  }

  /** In every run each shard does nothing but make checks, the last perhaps only begun. */
  lemma {:induction false} ShardsMakeChecks(states: seq<Sys>, steps: seq<Step>, s: nat, n: nat) returns (k: nat)
    requires IsRun(states, steps) && Initial(states[0]) && n <= |steps| && s in states[0].shards
    ensures AreChecks(states[0].shards[s], TraceOf(states, steps, s, n), k)
    decreases n
  {
    hide Next, ShardAfter, OpFor, Shaped, AreChecks;
    if n == 0 {
      NoChecksYet(states[0].shards[s]);
      k := 0;
    } else {
      k := ShardsMakeChecks(states, steps, s, n - 1);
      ShardIsItsTrace(states, steps, s, n - 1);
      var boot, trace := states[0].shards[s], TraceOf(states, steps, s, n - 1);
      OnlyDueOps(states[n - 1], states[n - 1 + 1], steps[n - 1], s);
      var more := OpFor(states[n - 1], steps[n - 1], s);
      if more == [] {
        assert trace + more == trace;
      } else {
        k := CheckGoesOn(boot, trace, k, more[0]);
        assert trace + more == trace + [more[0]];
      }
    }
  }

  lemma NoChecksYet(boot: Shard)
    requires boot.phase.Idle?
    ensures AreChecks(boot, [], 0)
  {
  }

  lemma OnlyDueOps(a: Sys, b: Sys, step: Step, s: nat)
    requires Shaped(a) && Next(a, b, step) && s in a.shards
    ensures step.Copy? ==> Reading(a, step.shard)
    ensures |OpFor(a, step, s)| <= 1 && forall op :: op in OpFor(a, step, s) ==> IsDue(a.shards[s], op)
  {
  }

  // ----- and whatever the order of turns, there is a run -----

  datatype Turn = Setter(step: Step) | Checker(shard: nat)

  ghost function WritesOf(turns: seq<Turn>): seq<Step>
  {
    if turns == [] then []
    else
      var before, last := WritesOf(turns[..|turns| - 1]), turns[|turns| - 1];
      if last.Setter? then before + [last.step] else before
  }

  /** The step a shard's check takes next. */
  ghost function StepDue(a: Sys, s: nat): Step
    requires s in a.shards
  {
    if a.shards[s].phase.Idle? then Load(s)
    else if |a.shards[s].phase.got| < CELLS then Copy(s)
    else Finish(s)
  }

  lemma DueRuns(a: Sys, s: nat) returns (b: Sys)
    requires Shaped(a) && s in a.shards
    ensures Shaped(b) && Next(a, b, StepDue(a, s)) && b.pending == a.pending && b.shards.Keys == a.shards.Keys
  {
    var x := a.shards[s];
    var y := if x.phase.Idle? then OnLoad(x, a.generation)
             else if |x.phase.got| < CELLS then OnRead(x, a.cells[|x.phase.got|])
             else OnFinish(x);
    b := a.(shards := a.shards[s := y]);
  }

  ghost predicate Takes(turn: Turn, step: Step)
  {
    match turn
    case Setter(w) => step == w
    case Checker(s) => step == Load(s) || step == Copy(s) || step == Finish(s)
  }

  /** Turns of setters that make calls and of shards that exist. */
  ghost predicate TurnsOk(a: Sys, turns: seq<Turn>)
  {
    && OnlySetters(WritesOf(turns)) && (forall t :: AreCalls(StepsOf(WritesOf(turns), t)))
    && forall i :: 0 <= i < |turns| && turns[i].Checker? ==> turns[i].shard in a.shards
  }

  lemma FrontOk(a: Sys, turns: seq<Turn>, front: seq<Turn>)
    requires turns != [] && TurnsOk(a, turns) && front == turns[..|turns| - 1]
    ensures TurnsOk(a, front)
    ensures turns[|turns| - 1].Setter? ==>
      var w := WritesOf(turns); w != [] && w[..|w| - 1] == WritesOf(front) && w[|w| - 1] == turns[|turns| - 1].step
  {
    var w, v := WritesOf(turns), WritesOf(front);
    if turns[|turns| - 1].Setter? {
      assert w[..|w| - 1] == v;
      forall t ensures AreCalls(StepsOf(v, t)) {
        assert AreCalls(StepsOf(w, t)) && StepsOf(v, t) <= StepsOf(w, t);
      }
      forall i | 0 <= i < |v| ensures v[i].Store? || v[i].Bump? {
        assert w[i] == v[i];
      }
    }
  }

  /** Every interleaving of calls by setters and checks by shards is a run. */
  lemma {:induction false} TurnsRun(a: Sys, turns: seq<Turn>) returns (states: seq<Sys>, steps: seq<Step>)
    requires Shaped(a) && a.pending == map[] && TurnsOk(a, turns)
    ensures IsRun(states, steps) && states[0] == a && |steps| == |turns| && Shaped(states[|steps|])
    ensures forall i :: 0 <= i < |turns| ==> Takes(turns[i], steps[i])
    ensures states[|steps|].shards.Keys == a.shards.Keys
    ensures forall t :: t in states[|steps|].pending <==> Halfway(StepsOf(WritesOf(turns), t))
    decreases |turns|
  {
    hide Next, StepsOf, AreCalls, Halfway, Shaped, OnlySetters, WritesOf, StepDue;
    if turns == [] {
      NothingDone();
      states, steps := [a], [];
    } else {
      var n := |turns| - 1;
      var front := turns[..n];
      FrontOk(a, turns, front);
      states, steps := TurnsRun(a, front);
      var next, step := TakeTurn(a, states[n], turns, front);
      states, steps := states + [next], steps + [step];
    }
  }

  lemma TakeTurn(a: Sys, now: Sys, turns: seq<Turn>, front: seq<Turn>) returns (next: Sys, step: Step)
    requires turns != [] && TurnsOk(a, turns) && front == turns[..|turns| - 1] && Shaped(now)
    requires now.shards.Keys == a.shards.Keys
    requires forall t :: t in now.pending <==> Halfway(StepsOf(WritesOf(front), t))
    ensures Shaped(next) && Next(now, next, step) && Takes(turns[|turns| - 1], step)
    ensures next.shards.Keys == a.shards.Keys
    ensures forall t :: t in next.pending <==> Halfway(StepsOf(WritesOf(turns), t))
  {
    hide Next, StepsOf, AreCalls, Halfway, Shaped;
    var last := turns[|turns| - 1];
    FrontOk(a, turns, front);
    match last {
      case Setter(w) =>
        step := w;
        next := CallStep(now, WritesOf(front), WritesOf(turns));
      case Checker(s) =>
        assert s in now.shards.Keys;
        step := StepDue(now, s);
        next := DueRuns(now, s);
    }
  }

  lemma NothingDone()
    ensures forall t :: !Halfway(StepsOf(WritesOf([]), t))
  {
  }
}
