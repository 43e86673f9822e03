/**
 * The whole simulated cache as a value: `2^s` sets plus the three counters,
 * one access (csim.c `access`), one trace entry (`process_instruction`) and a
 * whole trace (the read loop of `main`, with the trace already parsed).
 */
module CacheModel {
  import opened Arith
  import opened Address
  import opened LruSet

  /** The state of a `set_assoc_cache`: its sets and the counters `hits`, `misses`, `evictions`. */
  datatype CacheState = CacheState(sets: seq<seq<Line>>, hits: nat, misses: nat, evictions: nat)

  /** One parsed trace line `op addr,size`. */
  datatype Entry = Entry(op: char, addr: Addr, size: int)

  /** `2^s` sets of `E` lines each. */
  predicate WellFormed(g: Geometry, st: CacheState) {
    |st.sets| == SetCount(g) &&
    forall i :: 0 <= i < |st.sets| ==> |st.sets[i]| == g.E
  }

  /** No set caches the same block in two lines. */
  predicate DistinctTags(st: CacheState) {
    forall i :: 0 <= i < |st.sets| ==> DistinctValid(st.sets[i])
  }

  /** Every line of every set is invalid. */
  predicate AllInvalid(st: CacheState) {
    forall i, j :: 0 <= i < |st.sets| && 0 <= j < |st.sets[i]| ==> !st.sets[i][j].valid
  }

  /** Two states with equal counters whose sets agree on all valid lines. */
  predicate Agrees(a: CacheState, b: CacheState) {
    a.hits == b.hits && a.misses == b.misses && a.evictions == b.evictions &&
    |a.sets| == |b.sets| && forall i :: 0 <= i < |a.sets| ==> Agree(a.sets[i], b.sets[i])
  }

  /**
   * `create_cache`: every valid bit cleared (`calloc`) and all counters 0. The
   * tags come from `malloc` and are unspecified; this value uses 0, and
   * `FreshCachesAgree` shows that the choice is never observed.
   */
  function NewCache(g: Geometry): (st: CacheState)
    requires ValidGeometry(g)
    ensures WellFormed(g, st) && DistinctTags(st) && AllInvalid(st)
    ensures st.hits == 0 && st.misses == 0 && st.evictions == 0
  {
    CacheState(seq(SetCount(g), _ => seq(g.E, _ => Line(false, 0))), 0, 0, 0)
  }

  /** `hit_cache`, `miss_cache` and `evict_cache`: the counter updates one outcome causes. */
  function Tally(st: CacheState, o: Outcome): (r: CacheState)
    ensures r.sets == st.sets
    ensures r.hits + r.misses == st.hits + st.misses + 1
    ensures r.hits == st.hits + (if o == Hit then 1 else 0)
    ensures r.evictions == st.evictions + (if o == MissEviction then 1 else 0)
  {
    match o
    case Hit => st.(hits := st.hits + 1)
    case Miss => st.(misses := st.misses + 1)
    case MissEviction => st.(misses := st.misses + 1, evictions := st.evictions + 1)
  }

  /**
   * `access`: only the addressed set changes, the accessed block becomes its
   * most recently used line, a hit grows `hits`, a miss grows `misses`, and
   * a miss with eviction grows `evictions` as well.
   */
  function Access(g: Geometry, st: CacheState, addr: Addr): (r: (CacheState, Outcome))
    requires ValidGeometry(g) && WellFormed(g, st)
    ensures WellFormed(g, r.0)
    ensures forall i :: 0 <= i < |st.sets| && i != SetIndex(g, addr) ==> r.0.sets[i] == st.sets[i]
    ensures r.0.sets[SetIndex(g, addr)][0] == Line(true, Tag(g, addr))
    ensures r.1 == Hit <==> Resident(st.sets[SetIndex(g, addr)], Tag(g, addr))
    ensures r.0.hits == st.hits + (if r.1 == Hit then 1 else 0)
    ensures r.0.misses == st.misses + (if r.1 == Hit then 0 else 1)
    ensures r.0.evictions == st.evictions + (if r.1 == MissEviction then 1 else 0)
  {
    var i, t := SetIndex(g, addr), Tag(g, addr);
    var (lines, o) := AccessSet(st.sets[i], t);
    (Tally(st.(sets := st.sets[i := lines]), o), o)
  }

  /** How many accesses `process_instruction` issues for an op code. */
  function AccessesOf(op: char): nat {
    if op == 'M' then 2 else if op == 'L' || op == 'S' then 1 else 0
  }

  /** One access, appending its outcome to those already produced. */
  function Step(g: Geometry, acc: (CacheState, seq<Outcome>), addr: Addr): (r: (CacheState, seq<Outcome>))
    requires ValidGeometry(g) && WellFormed(g, acc.0)
    ensures WellFormed(g, r.0) && |r.1| == |acc.1| + 1
    ensures r.0 == Access(g, acc.0, addr).0 && r.1 == acc.1 + [Access(g, acc.0, addr).1]
  {
    var (st, o) := Access(g, acc.0, addr);
    (st, acc.1 + [o])
  }

  /**
   * `process_instruction`: `I` and unknown op codes do nothing, `L` and `S`
   * access once, `M` accesses the same address twice and the second access
   * always hits.
   */
  function Process(g: Geometry, st: CacheState, op: char, addr: Addr): (r: (CacheState, seq<Outcome>))
    requires ValidGeometry(g) && WellFormed(g, st)
    ensures WellFormed(g, r.0)
    ensures |r.1| == AccessesOf(op)
    ensures r.0.hits + r.0.misses == st.hits + st.misses + |r.1|
    ensures |r.1| == 0 ==> r.0 == st
    ensures op == 'M' ==> r.1[1] == Hit
  {
    if op == 'I' then (st, [])
    else
      var first := if op == 'L' || op == 'M' then Step(g, (st, []), addr) else (st, []);
      if op == 'S' || op == 'M' then Step(g, first, addr) else first
  }

  /** Number of accesses a whole trace issues. */
  function Accesses(trace: seq<Entry>): nat {
    if trace == [] then 0 else Accesses(trace[..|trace| - 1]) + AccessesOf(trace[|trace| - 1].op)
  }

  /** How many times `o` occurs among the outcomes. */
  function Occurrences(os: seq<Outcome>, o: Outcome): nat {
    if os == [] then 0 else Occurrences(os[..|os| - 1], o) + (if os[|os| - 1] == o then 1 else 0)
  }

  /** The trace fed entry by entry, in file order, through `process_instruction`; also the outcomes in order. */
  function Run(g: Geometry, st: CacheState, trace: seq<Entry>): (r: (CacheState, seq<Outcome>))
    requires ValidGeometry(g) && WellFormed(g, st)
    ensures WellFormed(g, r.0)
    decreases |trace|
  {
    if trace == [] then (st, [])
    else
      var (mid, os) := Run(g, st, trace[..|trace| - 1]);
      var e := trace[|trace| - 1];
      var (last, os') := Process(g, mid, e.op, e.addr);
      (last, os + os')
  }

  /** The outcomes of several entries, one after another. */
  function Concat(outs: seq<seq<Outcome>>): (r: seq<Outcome>)
    decreases |outs|
  {
    if outs == [] then [] else Concat(outs[..|outs| - 1]) + outs[|outs| - 1]
  }

  /**
   * A run is its entries' `process_instruction` calls one after another: given
   * the state before and after every entry and the outcomes each produces
   * (none, one or two), the run from the first state ends in the last with
   * all those outcomes in order.
   */
  lemma {:induction false} RunSteps(g: Geometry, states: seq<CacheState>, trace: seq<Entry>, outs: seq<seq<Outcome>>)
    requires ValidGeometry(g) && |states| == |trace| + 1 && |outs| == |trace|
    requires forall k :: 0 <= k < |states| ==> WellFormed(g, states[k])
    requires forall k :: 0 <= k < |trace| ==>
      Process(g, states[k], trace[k].op, trace[k].addr) == (states[k + 1], outs[k])
    ensures Run(g, states[0], trace) == (states[|trace|], Concat(outs))
    decreases |trace|
  {
    if trace != [] {
      var n := |trace|;
      RunSteps(g, states[..n], trace[..n - 1], outs[..n - 1]);
    }
  }

  /** Running one more entry continues from the state the shorter run reached. */
  lemma RunSnoc(g: Geometry, st: CacheState, trace: seq<Entry>, e: Entry)
    requires ValidGeometry(g) && WellFormed(g, st)
    ensures var prev := Run(g, st, trace);
      var next := Process(g, prev.0, e.op, e.addr);
      Run(g, st, trace + [e]) == (next.0, prev.1 + next.1)
  {
    assert (trace + [e])[..|trace|] == trace;
  }

  lemma PrefixSnoc<T>(s: seq<T>, k: nat)
    requires k < |s|
    ensures s[..k + 1] == s[..k] + [s[k]]
  {
  }

  // ---------------------------------------------------------------------------
  // Counting discipline
  // ---------------------------------------------------------------------------

  lemma {:induction false} OccurrencesAppend(a: seq<Outcome>, b: seq<Outcome>, o: Outcome)
    ensures Occurrences(a + b, o) == Occurrences(a, o) + Occurrences(b, o)
    decreases |b|
  {
    if b == [] {
      assert a + b == a;
    } else {
      assert (a + b)[..|a + b| - 1] == a + b[..|b| - 1];
      OccurrencesAppend(a, b[..|b| - 1], o);
    }
  }

  /** The three shapes `process_instruction` takes. */
  lemma ProcessCases(g: Geometry, st: CacheState, op: char, addr: Addr)
    requires ValidGeometry(g) && WellFormed(g, st)
    ensures op == 'L' || op == 'S' ==> Process(g, st, op, addr) == Step(g, (st, []), addr)
    ensures op == 'M' ==> Process(g, st, op, addr) == Step(g, Step(g, (st, []), addr), addr)
    ensures AccessesOf(op) == 0 ==> Process(g, st, op, addr) == (st, [])
  {
  }

  /** The counters of one trace entry match its outcomes. */
  lemma ProcessCounts(g: Geometry, st: CacheState, op: char, addr: Addr)
    requires ValidGeometry(g) && WellFormed(g, st)
    ensures var (r, os) := Process(g, st, op, addr);
      r.hits == st.hits + Occurrences(os, Hit) &&
      r.misses == st.misses + Occurrences(os, Miss) + Occurrences(os, MissEviction) &&
      r.evictions == st.evictions + Occurrences(os, MissEviction)
  {
    ProcessCases(g, st, op, addr);
    var (s1, o1) := Access(g, st, addr);
    if op == 'M' {
      var (s2, o2) := Access(g, s1, addr);
      assert Process(g, st, op, addr) == (s2, [o1, o2]) by {
        assert [] + [o1] + [o2] == [o1, o2];
      }
      OccurrencesPair(o1, o2, Hit);
      OccurrencesPair(o1, o2, Miss);
      OccurrencesPair(o1, o2, MissEviction);
    } else if op == 'L' || op == 'S' {
      assert Process(g, st, op, addr).1 == [] + [o1];
    }
  }

  /** How often an outcome occurs among two. */
  lemma OccurrencesPair(o1: Outcome, o2: Outcome, o: Outcome)
    ensures Occurrences([o1, o2], o) == (if o1 == o then 1 else 0) + (if o2 == o then 1 else 0)
  {
    assert [o1, o2][..1] == [o1] && [o1][..0] == [];
    assert Occurrences([o1], o) == (if o1 == o then 1 else 0);
  }

  /**
   * Over a whole trace: one outcome per access issued, `hits` counts the hits,
   * `misses` the misses with or without eviction and `evictions` the evictions.
   * Hence `hits + misses` grows by the number of accesses and `evictions` never
   * outgrows `misses`.
   */
  lemma {:induction false} RunCounts(g: Geometry, st: CacheState, trace: seq<Entry>)
    requires ValidGeometry(g) && WellFormed(g, st)
    ensures var (r, os) := Run(g, st, trace);
      |os| == Accesses(trace) &&
      r.hits == st.hits + Occurrences(os, Hit) &&
      r.misses == st.misses + Occurrences(os, Miss) + Occurrences(os, MissEviction) &&
      r.evictions == st.evictions + Occurrences(os, MissEviction) &&
      r.hits + r.misses == st.hits + st.misses + Accesses(trace) &&
      r.evictions - st.evictions <= r.misses - st.misses
    decreases |trace|
  {
    if trace != [] {
      var front := trace[..|trace| - 1];
      var e := trace[|trace| - 1];
      RunCounts(g, st, front);
      var (mid, os) := Run(g, st, front);
      ProcessCounts(g, mid, e.op, e.addr);
      var os' := Process(g, mid, e.op, e.addr).1;
      OccurrencesAppend(os, os', Hit);
      OccurrencesAppend(os, os', Miss);
      OccurrencesAppend(os, os', MissEviction);
    }
  }

  // ---------------------------------------------------------------------------
  // No block is cached twice
  // ---------------------------------------------------------------------------

  lemma AccessKeepsTagsDistinct(g: Geometry, st: CacheState, addr: Addr)
    requires ValidGeometry(g) && WellFormed(g, st) && DistinctTags(st)
    ensures DistinctTags(Access(g, st, addr).0)
  {
    var i, t := SetIndex(g, addr), Tag(g, addr);
    AccessPreservesDistinct(st.sets[i], t);
    var r := Access(g, st, addr).0;
    assert r.sets == st.sets[i := AccessSet(st.sets[i], t).0];
  }

  lemma ProcessKeepsTagsDistinct(g: Geometry, st: CacheState, op: char, addr: Addr)
    requires ValidGeometry(g) && WellFormed(g, st) && DistinctTags(st)
    ensures DistinctTags(Process(g, st, op, addr).0)
  {
    ProcessCases(g, st, op, addr);
    if op == 'L' || op == 'M' || op == 'S' {
      AccessKeepsTagsDistinct(g, st, addr);
      if op == 'M' {
        AccessKeepsTagsDistinct(g, Access(g, st, addr).0, addr);
      }
    }
  }

  /** Every state a trace reaches from a new cache caches each block at most once per set. */
  lemma {:induction false} RunKeepsTagsDistinct(g: Geometry, st: CacheState, trace: seq<Entry>)
    requires ValidGeometry(g) && WellFormed(g, st) && DistinctTags(st)
    ensures DistinctTags(Run(g, st, trace).0)
    decreases |trace|
  {
    if trace != [] {
      var front := trace[..|trace| - 1];
      var e := trace[|trace| - 1];
      RunKeepsTagsDistinct(g, st, front);
      ProcessKeepsTagsDistinct(g, Run(g, st, front).0, e.op, e.addr);
    }
  }

  // ---------------------------------------------------------------------------
  // Op codes
  // ---------------------------------------------------------------------------

  /**
   * `M` is one access followed by a hit on the line it just promoted: the
   * second access leaves the sets exactly as the first left them.
   */
  lemma ModifyIsAccessThenHit(g: Geometry, st: CacheState, addr: Addr)
    requires ValidGeometry(g) && WellFormed(g, st)
    ensures var (once, o) := Access(g, st, addr);
      Process(g, st, 'M', addr) == (Tally(once, Hit), [o, Hit])
  {
    ProcessCases(g, st, 'M', addr);
    var (once, o) := Access(g, st, addr);
    AccessAgainHits(g, st, addr);
    assert [] + [o] + [Hit] == [o, Hit];
  }

  /** Repeating an access hits and changes only `hits`. */
  lemma AccessAgainHits(g: Geometry, st: CacheState, addr: Addr)
    requires ValidGeometry(g) && WellFormed(g, st)
    ensures var once := Access(g, st, addr).0;
      Access(g, once, addr) == (Tally(once, Hit), Hit)
  {
    var once := Access(g, st, addr).0;
    var i, t := SetIndex(g, addr), Tag(g, addr);
    assert once.sets[i] == AccessSet(st.sets[i], t).0;
    AccessTwiceHits(st.sets[i], t);
    var (twice, o2) := AccessSet(once.sets[i], t);
    assert twice == once.sets[i] && o2 == Hit;
    assert once.sets[i := twice] == once.sets;
  }

  /** `L` and `S` are one access each; `I` and unknown op codes change nothing. */
  lemma ProcessSingle(g: Geometry, st: CacheState, op: char, addr: Addr)
    requires ValidGeometry(g) && WellFormed(g, st)
    ensures op == 'L' || op == 'S' ==>
      Process(g, st, op, addr) == (Access(g, st, addr).0, [Access(g, st, addr).1])
    ensures op != 'L' && op != 'S' && op != 'M' ==> Process(g, st, op, addr) == (st, [])
  {
    ProcessCases(g, st, op, addr);
    assert [] + [Access(g, st, addr).1] == [Access(g, st, addr).1];
  }

  // ---------------------------------------------------------------------------
  // Uninitialised tags
  // ---------------------------------------------------------------------------

  lemma AccessAgrees(g: Geometry, a: CacheState, b: CacheState, addr: Addr)
    requires ValidGeometry(g) && WellFormed(g, a) && WellFormed(g, b) && Agrees(a, b)
    ensures Access(g, a, addr).1 == Access(g, b, addr).1
    ensures Agrees(Access(g, a, addr).0, Access(g, b, addr).0)
  {
    var i, t := SetIndex(g, addr), Tag(g, addr);
    AccessIgnoresInvalidTags(a.sets[i], b.sets[i], t);
    var ra, rb := Access(g, a, addr).0, Access(g, b, addr).0;
    assert ra.sets == a.sets[i := AccessSet(a.sets[i], t).0];
    assert rb.sets == b.sets[i := AccessSet(b.sets[i], t).0];
  }

  lemma ProcessAgrees(g: Geometry, a: CacheState, b: CacheState, op: char, addr: Addr)
    requires ValidGeometry(g) && WellFormed(g, a) && WellFormed(g, b) && Agrees(a, b)
    ensures Process(g, a, op, addr).1 == Process(g, b, op, addr).1
    ensures Agrees(Process(g, a, op, addr).0, Process(g, b, op, addr).0)
  {
    if op == 'L' || op == 'M' || op == 'S' {
      AccessAgrees(g, a, b, addr);
      if op == 'M' {
        AccessAgrees(g, Access(g, a, addr).0, Access(g, b, addr).0, addr);
      }
    }
  }

  /** Runs from states that agree on their valid lines report the same outcomes and counters. */
  lemma {:induction false} RunAgrees(g: Geometry, a: CacheState, b: CacheState, trace: seq<Entry>)
    requires ValidGeometry(g) && WellFormed(g, a) && WellFormed(g, b) && Agrees(a, b)
    ensures Run(g, a, trace).1 == Run(g, b, trace).1
    ensures Agrees(Run(g, a, trace).0, Run(g, b, trace).0)
    decreases |trace|
  {
    if trace != [] {
      var front := trace[..|trace| - 1];
      var e := trace[|trace| - 1];
      RunAgrees(g, a, b, front);
      ProcessAgrees(g, Run(g, a, front).0, Run(g, b, front).0, e.op, e.addr);
    }
  }

  /**
   * Whatever tags `malloc` leaves in a new cache, a trace produces the same
   * outcomes and the same final counters as from `NewCache`.
   */
  lemma FreshCachesAgree(g: Geometry, st: CacheState, trace: seq<Entry>)
    requires ValidGeometry(g) && WellFormed(g, st) && AllInvalid(st)
    requires st.hits == 0 && st.misses == 0 && st.evictions == 0
    ensures Run(g, st, trace).1 == Run(g, NewCache(g), trace).1
    ensures Agrees(Run(g, st, trace).0, Run(g, NewCache(g), trace).0)
  {
    var empty := NewCache(g);
    forall i | 0 <= i < |st.sets| ensures Agree(st.sets[i], empty.sets[i]) {
      forall j | 0 <= j < |st.sets[i]| ensures st.sets[i][j].valid == empty.sets[i][j].valid {
        assert !st.sets[i][j].valid;
      }
    }
    RunAgrees(g, st, empty, trace);
  }
}
