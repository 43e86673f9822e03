/**
 * The simulator as csim.c writes it: a cache object whose sets are arrays
 * updated in place, and the routines `create_cache`, `hit_cache`,
 * `miss_cache`, `evict_cache`, `set_as_mru`, `access`,
 * `process_instruction` and the read loop of `main`. `access`,
 * `process_instruction` and the read loop are proved to reach the state the
 * matching `CacheModel` function gives; `create_cache` agrees with
 * `CacheModel.NewCache` on everything but the tags `malloc` leaves behind;
 * the counter routines are proved against `CacheModel.Tally` or a single
 * counter update, and `set_as_mru` against `LruSet.MoveToFront`.
 */
module CacheSim {
  import opened Arith
  import opened Address
  import opened LruSet
  import opened CacheModel

  /**
   * A `set_assoc_cache`. Slot `e` of set `i` is `sets[i][e]`, standing for the
   * pair `vs[i][e]`, `tags[i][e]`; the table of set pointers never changes
   * after `create_cache`, so it is a constant. The ghost `lines` is the
   * contents of every set, kept equal to the arrays.
   */
  class Cache {
    const g: Geometry
    const sets: seq<array<Line>>
    var hits: nat
    var misses: nat
    var evictions: nat
    ghost var lines: seq<seq<Line>>

    ghost predicate Valid()
      reads this, set i | 0 <= i < |sets| :: sets[i]
    {
      ValidGeometry(g) &&
      |sets| == SetCount(g) && |lines| == |sets| &&
      (forall i :: 0 <= i < |sets| ==> sets[i].Length == g.E && lines[i] == sets[i][..]) &&
      (forall i, j :: 0 <= i < j < |sets| ==> sets[i] != sets[j])
    }

    /** The cache as a value of the model. */
    ghost function View(): (st: CacheState)
      reads this
    {
      CacheState(lines, hits, misses, evictions)
    }

    /**
     * `create_cache`: `2^s` sets of `E` slots each, every valid bit cleared
     * (`calloc`), the tags left as `malloc` leaves them, all counters 0.
     */
    constructor (s: nat, E: nat, b: nat)
      requires ValidGeometry(Geometry(s, E, b))
      ensures Valid() && g == Geometry(s, E, b)
      ensures WellFormed(g, View()) && AllInvalid(View())
      ensures hits == 0 && misses == 0 && evictions == 0
      ensures Agrees(View(), NewCache(g))
      ensures forall i :: 0 <= i < |sets| ==> fresh(sets[i])
    {
      g := Geometry(s, E, b);
      var n := SetCount(Geometry(s, E, b));
      var made: seq<array<Line>> := [];
      ghost var contents: seq<seq<Line>> := [];
      for i := 0 to n
        invariant |made| == i && |contents| == i
        invariant forall k :: 0 <= k < i ==> fresh(made[k]) && made[k].Length == E
        invariant forall k :: 0 <= k < i ==> contents[k] == made[k][..]
        invariant forall k :: 0 <= k < i ==> forall j :: 0 <= j < E ==> !contents[k][j].valid
        invariant forall k, l :: 0 <= k < l < i ==> made[k] != made[l]
      {
        var slots := new Line[E];
        for j := 0 to E
          modifies slots
          invariant forall m :: 0 <= m < j ==> !slots[m].valid
        {
          slots[j] := Line(false, slots[j].tag);
        }
        made := made + [slots];
        contents := contents + [slots[..]];
      }
      sets := made;
      lines := contents;
      hits, misses, evictions := 0, 0, 0;
      new;
      forall i | 0 <= i < |lines| ensures Agree(lines[i], NewCache(g).sets[i]) {
        forall j | 0 <= j < |lines[i]| ensures lines[i][j].valid == NewCache(g).sets[i][j].valid {
          assert !lines[i][j].valid;
        }
      }
    }

    /** `hit_cache`. */
    method HitCache()
      requires Valid()
      modifies this`hits
      ensures Valid()
      ensures View() == Tally(old(View()), Hit)
    {
      hits := hits + 1;
    }

    /** `miss_cache`. */
    method MissCache()
      requires Valid()
      modifies this`misses
      ensures Valid()
      ensures View() == Tally(old(View()), Miss)
    {
      misses := misses + 1;
    }

    /** `evict_cache`: called right after `miss_cache` on an eviction. */
    method EvictCache()
      requires Valid()
      modifies this`evictions
      ensures Valid()
      ensures View() == old(View()).(evictions := old(evictions) + 1)
    {
      evictions := evictions + 1;
    }

    /**
     * `set_as_mru`: slot `e` of set `index` is saved, slots `e - 1` down to `0`
     * each move one position up, and the saved slot goes to position 0.
     */
    method SetAsMru(index: nat, e: nat)
      requires Valid() && index < |sets| && e < g.E
      modifies this`lines, sets[index]
      ensures Valid()
      ensures sets[index][..] == MoveToFront(old(sets[index][..]), e)
      ensures View() == old(View()).(sets := old(lines)[index := MoveToFront(old(lines[index]), e)])
    {
      var a := sets[index];
      ghost var was := a[..];
      var saved := a[e];
      var k := e;
      while k > 0
        modifies a
        invariant 0 <= k <= e
        invariant forall j :: 0 <= j <= k ==> a[j] == was[j]
        invariant forall j :: k < j <= e ==> a[j] == was[j - 1]
        invariant forall j :: e < j < a.Length ==> a[j] == was[j]
      {
        a[k] := a[k - 1];
        k := k - 1;
      }
      a[0] := saved;
      assert a[..] == MoveToFront(was, e);
      lines := lines[index := a[..]];
      forall i | 0 <= i < |sets| && i != index ensures lines[i] == sets[i][..] {
        assert sets[i] != a;
      }
    }

    /**
     * `access`: a hit on the first valid slot holding the tag, otherwise a
     * miss that fills the first invalid slot, otherwise a miss that evicts
     * slot `E - 1`; the slot used becomes the most recently used. The outcome
     * is what verbose mode prints.
     */
    method Access(addr: Addr) returns (o: Outcome)
      requires Valid()
      modifies this, sets[SetIndex(g, addr)]
      ensures Valid()
      ensures (View(), o) == CacheModel.Access(g, old(View()), addr)
    {
      var index := SetIndex(g, addr);
      var tag := Tag(g, addr);
      var a := sets[index];
      ghost var st := View();
      assert a[..] == st.sets[index];
      for e := 0 to g.E
        invariant Valid() && View() == st
        invariant forall j :: 0 <= j < e ==> !Holds(a[j], tag)
      {
        if a[e].tag == tag && a[e].valid {
          AccessHitPromotes(st.sets[index], tag, e);
          HitCache();
          SetAsMru(index, e);
          o := Hit;
          assert st.sets[index := a[..]] == lines;
          return;
        }
      }
      assert !Resident(st.sets[index], tag);
      for e := 0 to g.E
        invariant Valid() && View() == st
        invariant forall j :: 0 <= j < e ==> a[j].valid
      {
        if !a[e].valid {
          AccessFillsFirstFree(st.sets[index], tag, e);
          a[e] := Line(true, tag);
          lines := lines[index := a[..]];
          MissCache();
          SetAsMru(index, e);
          o := Miss;
          assert st.sets[index := a[..]] == lines;
          return;
        }
      }
      assert Full(st.sets[index]);
      AccessEvictsLru(st.sets[index], tag);
      a[g.E - 1] := Line(true, tag);
      lines := lines[index := a[..]];
      MissCache();
      EvictCache();
      SetAsMru(index, g.E - 1);
      assert st.sets[index := a[..]] == lines;
      o := MissEviction;
    }

    /**
     * `process_instruction`: `I` is ignored, `L` and `S` access the address
     * once, `M` accesses it twice; `size` never matters.
     */
    method ProcessInstruction(op: char, addr: Addr, size: int) returns (outs: seq<Outcome>)
      requires Valid()
      modifies this, sets[SetIndex(g, addr)]
      ensures Valid()
      ensures (View(), outs) == Process(g, old(View()), op, addr)
    {
      ghost var st := View();
      ProcessCases(g, st, op, addr);
      outs := [];
      if op == 'I' {
        return;
      }
      if op == 'L' || op == 'M' {
        var o := Access(addr);
        outs := outs + [o];
      }
      if op == 'S' || op == 'M' {
        var o := Access(addr);
        outs := outs + [o];
      }
    }

    /**
     * The read loop of `main`, over a trace that is already parsed: each
     * entry goes through `process_instruction` in order. The counters
     * `printSummary` reports are then `hits`, `misses` and `evictions`.
     */
    method RunTrace(trace: seq<Entry>) returns (outs: seq<Outcome>)
      requires Valid()
      modifies this, set i | 0 <= i < |sets| :: sets[i]
      ensures Valid()
      ensures (View(), outs) == Run(g, old(View()), trace)
    {
      outs := [];
      for k := 0 to |trace|
        invariant Valid()
        invariant (View(), outs) == Run(g, old(View()), trace[..k])
      {
        RunSnoc(g, old(View()), trace[..k], trace[k]);
        PrefixSnoc(trace, k);
        var os := ProcessInstruction(trace[k].op, trace[k].addr, trace[k].size);
        outs := outs + os;
      }
      assert trace[..|trace|] == trace;
    }
  }
}
