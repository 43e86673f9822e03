/** Concrete traces whose outcomes follow from the simulator's LRU replacement rules. */
module CacheExamples {
  import opened Arith
  import opened Address
  import opened LruSet
  import opened CacheModel

  function Load(addr: Addr): Entry {
    Entry('L', addr, 1)
  }

  /** One load, given what the addressed set does. */
  lemma LoadStep(g: Geometry, st: CacheState, addr: Addr, i: nat, t: nat, lines: seq<Line>, o: Outcome, st': CacheState)
    requires ValidGeometry(g) && WellFormed(g, st)
    requires SetIndex(g, addr) == i && Tag(g, addr) == t && AccessSet(st.sets[i], t) == (lines, o)
    requires st' == Tally(st.(sets := st.sets[i := lines]), o)
    ensures Process(g, st, 'L', addr) == (st', [o])
  {
    ProcessSingle(g, st, 'L', addr);
  }

  /** A one-line set always ends up holding the accessed tag. */
  lemma SingleLine(line: Line, tag: nat)
    ensures AccessSet([line], tag) ==
      ([Line(true, tag)], if Holds(line, tag) then Hit else if line.valid then MissEviction else Miss)
  {
    var r := AccessSet([line], tag);
    assert [line][0] == line;
    assert Resident([line], tag) == Holds(line, tag);
    assert Full([line]) == line.valid;
    assert r.0 == [Line(true, tag)];
  }

  /**
   * A load into a direct-mapped cache (`E = 1`): the addressed set ends up
   * holding just the loaded block; it hits if it held that block already and
   * evicts if it held another one.
   */
  lemma DirectMappedLoad(g: Geometry, st: CacheState, addr: Addr, i: nat, t: nat, line: Line, o: Outcome, st': CacheState)
    requires ValidGeometry(g) && g.E == 1 && WellFormed(g, st)
    requires SetIndex(g, addr) == i && Tag(g, addr) == t && st.sets[i] == [line]
    requires o == if Holds(line, t) then Hit else if line.valid then MissEviction else Miss
    requires st' == Tally(st.(sets := st.sets[i := [Line(true, t)]]), o)
    ensures Process(g, st, 'L', addr) == (st', [o])
  {
    SingleLine(line, t);
    LoadStep(g, st, addr, i, t, [Line(true, t)], o, st');
  }

  /** Four entries, each with its known effect, run one after another. */
  lemma Chain4(g: Geometry, s0: CacheState, s1: CacheState, s2: CacheState, s3: CacheState, s4: CacheState,
               e0: Entry, e1: Entry, e2: Entry, e3: Entry, o0: Outcome, o1: Outcome, o2: Outcome, o3: Outcome)
    requires ValidGeometry(g) && WellFormed(g, s0)
    requires Process(g, s0, e0.op, e0.addr) == (s1, [o0]) && WellFormed(g, s1)
    requires Process(g, s1, e1.op, e1.addr) == (s2, [o1]) && WellFormed(g, s2)
    requires Process(g, s2, e2.op, e2.addr) == (s3, [o2]) && WellFormed(g, s3)
    requires Process(g, s3, e3.op, e3.addr) == (s4, [o3]) && WellFormed(g, s4)
    ensures Run(g, s0, [e0, e1, e2, e3]) == (s4, [o0, o1, o2, o3])
  {
    Chain2(g, s0, s1, s2, e0, e1, o0, o1);
    Appended(e0, e1, e2, e3);
    Appended(o0, o1, o2, o3);
    RunSnoc(g, s0, [e0, e1], e2);
    RunSnoc(g, s0, [e0, e1, e2], e3);
  }

  /** The first two of those entries. */
  lemma Chain2(g: Geometry, s0: CacheState, s1: CacheState, s2: CacheState,
               e0: Entry, e1: Entry, o0: Outcome, o1: Outcome)
    requires ValidGeometry(g) && WellFormed(g, s0)
    requires Process(g, s0, e0.op, e0.addr) == (s1, [o0]) && WellFormed(g, s1)
    requires Process(g, s1, e1.op, e1.addr) == (s2, [o1])
    ensures Run(g, s0, [e0, e1]) == (s2, [o0, o1])
  {
    Started(e0, e1);
    Started(o0, o1);
    assert Run(g, s0, []) == (s0, []);
    RunSnoc(g, s0, [], e0);
    RunSnoc(g, s0, [e0], e1);
  }

  lemma Started<T>(a: T, b: T)
    ensures [] + [a] == [a] && [a] + [b] == [a, b]
  {
  }

  lemma Appended<T>(a: T, b: T, c: T, d: T)
    ensures [a, b] + [c] == [a, b, c] && [a, b, c] + [d] == [a, b, c, d]
  {
  }

  /**
   * One set of one line (`s = 0, E = 1, b = 0`): addresses 0, 1, 0, 0 miss,
   * evict twice, then hit.
   */
  lemma OneLineThrashes(g: Geometry)
    requires g == Geometry(0, 1, 0)
    ensures Run(g, NewCache(g), [Load(0), Load(1), Load(0), Load(0)]) ==
      (CacheState([[Line(true, 0)]], 1, 3, 2), [Miss, MissEviction, MissEviction, Hit])
  {
    var st0 := NewCache(g);
    assert st0 == CacheState([[Line(false, 0)]], 0, 0, 0) by {
      assert SetCount(g) == 1;
      assert st0.sets[0] == [Line(false, 0)];
    }
    var st1 := CacheState([[Line(true, 0)]], 0, 1, 0);
    var st2 := CacheState([[Line(true, 1)]], 0, 2, 1);
    var st3 := CacheState([[Line(true, 0)]], 0, 3, 2);
    var st4 := CacheState([[Line(true, 0)]], 1, 3, 2);
    DirectMappedLoad(g, st0, 0, 0, 0, Line(false, 0), Miss, st1);
    DirectMappedLoad(g, st1, 1, 0, 1, Line(true, 0), MissEviction, st2);
    DirectMappedLoad(g, st2, 0, 0, 0, Line(true, 1), MissEviction, st3);
    DirectMappedLoad(g, st3, 0, 0, 0, Line(true, 0), Hit, st4);
    Chain4(g, st0, st1, st2, st3, st4, Load(0), Load(1), Load(0), Load(0),
           Miss, MissEviction, MissEviction, Hit);
  }

  /**
   * Two sets of one line (`s = 1, E = 1, b = 0`): addresses 0 and 1 fall in
   * sets 0 and 1, so 0, 1, 0, 1 misses twice and then hits twice.
   */
  lemma TwoSetsKeepTwoBlocks(g: Geometry)
    requires g == Geometry(1, 1, 0)
    ensures Run(g, NewCache(g), [Load(0), Load(1), Load(0), Load(1)]) ==
      (CacheState([[Line(true, 0)], [Line(true, 0)]], 2, 2, 0), [Miss, Miss, Hit, Hit])
  {
    var st0 := NewCache(g);
    var empty, one := [Line(false, 0)], [Line(true, 0)];
    assert st0 == CacheState([empty, empty], 0, 0, 0) by {
      assert SetCount(g) == 2;
      assert st0.sets[0] == empty && st0.sets[1] == empty;
    }
    var st1 := CacheState([one, empty], 0, 1, 0);
    var st2 := CacheState([one, one], 0, 2, 0);
    var st3 := CacheState([one, one], 1, 2, 0);
    var st4 := CacheState([one, one], 2, 2, 0);
    assert SetIndex(g, 1) == 1 && Tag(g, 1) == 0;
    assert st0.sets[0 := one] == [one, empty];
    DirectMappedLoad(g, st0, 0, 0, 0, Line(false, 0), Miss, st1);
    assert st1.sets[1 := one] == [one, one];
    DirectMappedLoad(g, st1, 1, 1, 0, Line(false, 0), Miss, st2);
    assert st2.sets[0 := one] == [one, one];
    DirectMappedLoad(g, st2, 0, 0, 0, Line(true, 0), Hit, st3);
    assert st3.sets[1 := one] == [one, one];
    DirectMappedLoad(g, st3, 1, 1, 0, Line(true, 0), Hit, st4);
    Chain4(g, st0, st1, st2, st3, st4, Load(0), Load(1), Load(0), Load(1), Miss, Miss, Hit, Hit);
  }

  /**
   * With `s = 1, b = 0` the set index is bit 0 of the address, so address 2
   * lands in set 0 with tag 1: after 0, 2 evicts the block of address 0,
   * address 1 misses in the untouched set 1, and 2 then hits.
   */
  lemma EvenAddressesShareSetZero(g: Geometry)
    requires g == Geometry(1, 1, 0)
    ensures SetIndex(g, 2) == 0 && Tag(g, 2) == 1
    ensures Run(g, NewCache(g), [Load(0), Load(2), Load(1), Load(2)]) ==
      (CacheState([[Line(true, 1)], [Line(true, 0)]], 1, 3, 1), [Miss, MissEviction, Miss, Hit])
  {
    var st0 := NewCache(g);
    var empty := [Line(false, 0)];
    assert st0 == CacheState([empty, empty], 0, 0, 0) by {
      assert SetCount(g) == 2;
      assert st0.sets[0] == empty && st0.sets[1] == empty;
    }
    var zero, two := [Line(true, 0)], [Line(true, 1)];
    var st1 := CacheState([zero, empty], 0, 1, 0);
    var st2 := CacheState([two, empty], 0, 2, 1);
    var st3 := CacheState([two, zero], 0, 3, 1);
    var st4 := CacheState([two, zero], 1, 3, 1);
    assert SetIndex(g, 2) == 0 && Tag(g, 2) == 1;
    assert SetIndex(g, 1) == 1 && Tag(g, 1) == 0;
    assert st0.sets[0 := zero] == st1.sets;
    DirectMappedLoad(g, st0, 0, 0, 0, Line(false, 0), Miss, st1);
    assert st1.sets[0 := two] == st2.sets;
    DirectMappedLoad(g, st1, 2, 0, 1, Line(true, 0), MissEviction, st2);
    assert st2.sets[1 := zero] == st3.sets;
    DirectMappedLoad(g, st2, 1, 1, 0, Line(false, 0), Miss, st3);
    assert st3.sets[0 := two] == st4.sets;
    DirectMappedLoad(g, st3, 2, 0, 1, Line(true, 1), Hit, st4);
    Chain4(g, st0, st1, st2, st3, st4, Load(0), Load(2), Load(1), Load(2), Miss, MissEviction, Miss, Hit);
  }

  /** A free line in a two-line set: the new block is placed there and moved to the front. */
  lemma TwoWayFill(x: Line, y: Line, t: nat)
    requires !Holds(x, t) && !Holds(y, t)
    requires !x.valid || (x.valid && !y.valid)
    ensures AccessSet([x, y], t) == (if x.valid then [Line(true, t), x] else [Line(true, t), y], Miss)
  {
    assert !Resident([x, y], t) by {
      forall j | 0 <= j < 2 ensures !Holds([x, y][j], t) { }
    }
    if x.valid {
      AccessFillsFirstFree([x, y], t, 1);
      assert [x, y][1 := Line(true, t)] == [x, Line(true, t)];
      assert MoveToFront([x, Line(true, t)], 1) == [Line(true, t), x];
    } else {
      AccessFillsFirstFree([x, y], t, 0);
      assert [x, y][0 := Line(true, t)] == [Line(true, t), y];
      assert MoveToFront([Line(true, t), y], 0) == [Line(true, t), y];
    }
  }

  /** A hit on the second line of a two-line set swaps the two lines. */
  lemma TwoWayHitSecond(x: Line, y: Line, t: nat)
    requires !Holds(x, t) && Holds(y, t)
    ensures AccessSet([x, y], t) == ([y, x], Hit)
  {
    AccessHitPromotes([x, y], t, 1);
    assert MoveToFront([x, y], 1) == [y, x];
  }

  /** A miss in a full two-line set replaces the second (least recently used) line. */
  lemma TwoWayEvict(x: Line, y: Line, t: nat)
    requires x.valid && y.valid && !Holds(x, t) && !Holds(y, t)
    ensures AccessSet([x, y], t) == ([Line(true, t), x], MissEviction)
  {
    assert !Resident([x, y], t) && Full([x, y]) by {
      forall j | 0 <= j < 2 ensures !Holds([x, y][j], t) && [x, y][j].valid { }
    }
    AccessEvictsLru([x, y], t);
    assert [x, y][1 := Line(true, t)] == [x, Line(true, t)];
    assert MoveToFront([x, Line(true, t)], 1) == [Line(true, t), x];
  }

  /**
   * LRU order (`s = 0, E = 2, b = 0`): tags 10, 11, 10, 12 give miss, miss,
   * hit, miss with eviction, and the evicted block is 11, the least recently
   * used one, not 10.
   */
  lemma LeastRecentlyUsedIsEvicted(g: Geometry)
    requires g == Geometry(0, 2, 0)
    ensures Run(g, NewCache(g), [Load(10), Load(11), Load(10), Load(12)]) ==
      (CacheState([[Line(true, 12), Line(true, 10)]], 1, 3, 1), [Miss, Miss, Hit, MissEviction])
  {
    var st0 := NewCache(g);
    var empty := Line(false, 0);
    assert st0 == CacheState([[empty, empty]], 0, 0, 0) by {
      assert SetCount(g) == 1;
      assert st0.sets[0] == [empty, empty];
    }
    var a, b, c := Line(true, 10), Line(true, 11), Line(true, 12);
    var st1 := CacheState([[a, empty]], 0, 1, 0);
    var st2 := CacheState([[b, a]], 0, 2, 0);
    var st3 := CacheState([[a, b]], 1, 2, 0);
    var st4 := CacheState([[c, a]], 1, 3, 1);
    TwoWayFill(empty, empty, 10);
    TwoWayFill(a, empty, 11);
    TwoWayHitSecond(b, a, 10);
    TwoWayEvict(a, b, 12);
    assert SetIndex(g, 10) == 0 && Tag(g, 10) == 10;
    assert SetIndex(g, 11) == 0 && Tag(g, 11) == 11;
    assert SetIndex(g, 12) == 0 && Tag(g, 12) == 12;
    LoadStep(g, st0, 10, 0, 10, [a, empty], Miss, st1);
    LoadStep(g, st1, 11, 0, 11, [b, a], Miss, st2);
    LoadStep(g, st2, 10, 0, 10, [a, b], Hit, st3);
    LoadStep(g, st3, 12, 0, 12, [c, a], MissEviction, st4);
    Chain4(g, st0, st1, st2, st3, st4, Load(10), Load(11), Load(10), Load(12), Miss, Miss, Hit, MissEviction);
  }

  /** `M` on a new cache, for any geometry and address: one miss, then one hit. */
  lemma ModifyOnNewCache(g: Geometry, addr: Addr)
    requires ValidGeometry(g)
    ensures var (r, os) := Process(g, NewCache(g), 'M', addr);
      os == [Miss, Hit] && r.hits == 1 && r.misses == 1 && r.evictions == 0
  {
    var st := NewCache(g);
    var i, t := SetIndex(g, addr), Tag(g, addr);
    assert !Resident(st.sets[i], t);
    assert !Full(st.sets[i]) by { assert !st.sets[i][0].valid; }
    ModifyIsAccessThenHit(g, st, addr);
  }
}
