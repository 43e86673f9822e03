/**
 * One set of the set-associative cache (csim.c, `set_as_mru` and the body of
 * `access`): a sequence of `E` lines ordered from most recently used
 * (position 0) to least recently used (position `E - 1`).
 */
module LruSet {

  /** A cache line: its valid bit and its tag (csim.c keeps the two in the parallel arrays `vs` and `tags`). */
  datatype Line = Line(valid: bool, tag: nat)

  /** How one access is classified; the verbose output names these `hit`, `miss`, `miss eviction`. */
  datatype Outcome = Hit | Miss | MissEviction

  /** The line is valid and holds `tag`: the hit test of `access`. */
  predicate Holds(line: Line, tag: nat) {
    line.valid && line.tag == tag
  }

  /** Some valid line of the set holds `tag`. */
  predicate Resident(lines: seq<Line>, tag: nat) {
    exists j :: 0 <= j < |lines| && Holds(lines[j], tag)
  }

  /** Every line of the set is valid, so a miss must evict. */
  predicate Full(lines: seq<Line>) {
    forall j :: 0 <= j < |lines| ==> lines[j].valid
  }

  /** Among the valid lines of a set no tag occurs twice. */
  predicate DistinctValid(lines: seq<Line>) {
    forall j, k :: 0 <= j < k < |lines| && lines[j].valid && lines[k].valid ==> lines[j].tag != lines[k].tag
  }

  /** The tags of the valid lines: the blocks the set currently caches. */
  function ResidentTags(lines: seq<Line>): set<nat> {
    set j | 0 <= j < |lines| && lines[j].valid :: lines[j].tag
  }

  /** Two sets that agree on every valid bit and on the tag of every valid line. */
  predicate Agree(a: seq<Line>, b: seq<Line>) {
    |a| == |b| &&
    forall j :: 0 <= j < |a| ==> a[j].valid == b[j].valid && (a[j].valid ==> a[j].tag == b[j].tag)
  }

  /** Position of the first valid line holding `tag` (the first loop of `access`), or `|lines|` if none. */
  function FindHit(lines: seq<Line>, tag: nat): (k: nat)
    ensures k <= |lines|
    ensures forall j :: 0 <= j < k ==> !Holds(lines[j], tag)
    ensures k < |lines| ==> Holds(lines[k], tag)
    decreases |lines|
  {
    if lines == [] then 0
    else if Holds(lines[0], tag) then 0
    else 1 + FindHit(lines[1..], tag)
  }

  /** Position of the first invalid line (the second loop of `access`), or `|lines|` if none. */
  function FindFree(lines: seq<Line>): (k: nat)
    ensures k <= |lines|
    ensures forall j :: 0 <= j < k ==> lines[j].valid
    ensures k < |lines| ==> !lines[k].valid
    decreases |lines|
  {
    if lines == [] then 0
    else if !lines[0].valid then 0
    else 1 + FindFree(lines[1..])
  }

  /**
   * `set_as_mru`: line `e` moves to position 0, lines `0 .. e-1` move one
   * position down in their old order, lines after `e` stay where they are.
   */
  function MoveToFront(lines: seq<Line>, e: nat): (r: seq<Line>)
    requires e < |lines|
    ensures |r| == |lines| && r[0] == lines[e]
    ensures forall j :: 0 < j <= e ==> r[j] == lines[j - 1]
    ensures forall j :: e < j < |lines| ==> r[j] == lines[j]
  {
    [lines[e]] + lines[..e] + lines[e + 1..]
  }

  /** Promotion only reorders the lines of a set. */
  lemma MoveToFrontPermutes(lines: seq<Line>, e: nat)
    requires e < |lines|
    ensures multiset(MoveToFront(lines, e)) == multiset(lines)
  {
    assert lines == lines[..e] + [lines[e]] + lines[e + 1..];
  }

  /**
   * `access` on one set: a hit promotes the matching line; otherwise the first
   * invalid line, or failing that the last (least recently used) line, is
   * overwritten with `{valid, tag}` and promoted.
   */
  function AccessSet(lines: seq<Line>, tag: nat): (r: (seq<Line>, Outcome))
    requires |lines| >= 1
    ensures |r.0| == |lines| && r.0[0] == Line(true, tag)
    ensures r.1 == Hit <==> Resident(lines, tag)
    ensures r.1 == MissEviction <==> !Resident(lines, tag) && Full(lines)
  {
    var h := FindHit(lines, tag);
    if h < |lines| then
      (MoveToFront(lines, h), Hit)
    else
      var f := FindFree(lines);
      if f < |lines| then
        (MoveToFront(lines[f := Line(true, tag)], f), Miss)
      else
        (MoveToFront(lines[|lines| - 1 := Line(true, tag)], |lines| - 1), MissEviction)
  }

  /** A hit on the first line holding the tag promotes exactly that line and changes nothing else. */
  lemma AccessHitPromotes(lines: seq<Line>, tag: nat, e: nat)
    requires e < |lines| && Holds(lines[e], tag)
    requires forall j :: 0 <= j < e ==> !Holds(lines[j], tag)
    ensures AccessSet(lines, tag) == (MoveToFront(lines, e), Hit)
  {
    assert FindHit(lines, tag) == e;
  }

  /** A miss with an invalid line fills the first invalid line and promotes it. */
  lemma AccessFillsFirstFree(lines: seq<Line>, tag: nat, e: nat)
    requires !Resident(lines, tag)
    requires e < |lines| && !lines[e].valid
    requires forall j :: 0 <= j < e ==> lines[j].valid
    ensures AccessSet(lines, tag) == (MoveToFront(lines[e := Line(true, tag)], e), Miss)
  {
    assert FindHit(lines, tag) == |lines|;
    assert FindFree(lines) == e;
  }

  /** A miss on a full set overwrites the least recently used line and promotes it. */
  lemma AccessEvictsLru(lines: seq<Line>, tag: nat)
    requires |lines| >= 1 && !Resident(lines, tag) && Full(lines)
    ensures AccessSet(lines, tag) == (MoveToFront(lines[|lines| - 1 := Line(true, tag)], |lines| - 1), MissEviction)
  {
    assert FindHit(lines, tag) == |lines|;
    assert FindFree(lines) == |lines|;
  }

  /** A hit only reorders the set: no block enters or leaves it. */
  lemma AccessHitPermutes(lines: seq<Line>, tag: nat)
    requires |lines| >= 1 && Resident(lines, tag)
    ensures multiset(AccessSet(lines, tag).0) == multiset(lines)
  {
    MoveToFrontPermutes(lines, FindHit(lines, tag));
  }

  /**
   * An eviction shifts every line one position towards the least recently
   * used end; the old last line is the one that leaves.
   */
  lemma AccessEvictionShifts(lines: seq<Line>, tag: nat)
    requires |lines| >= 1 && !Resident(lines, tag) && Full(lines)
    ensures AccessSet(lines, tag).0[1..] == lines[..|lines| - 1]
  {
    AccessEvictsLru(lines, tag);
    var r := AccessSet(lines, tag).0;
    forall j | 0 <= j < |lines| - 1 ensures r[1..][j] == lines[j] {
      assert r[j + 1] == lines[|lines| - 1 := Line(true, tag)][j];
    }
  }

  lemma MoveToFrontDistinct(lines: seq<Line>, e: nat)
    requires e < |lines| && DistinctValid(lines)
    ensures DistinctValid(MoveToFront(lines, e))
  {
    var r := MoveToFront(lines, e);
    // position of r[j] in `lines`
    var src := (j: int) => if j == 0 then e else if j <= e then j - 1 else j;
    forall j, k | 0 <= j < k < |r| && r[j].valid && r[k].valid
      ensures r[j].tag != r[k].tag
    {
      assert r[j] == lines[src(j)] && r[k] == lines[src(k)];
      assert src(j) != src(k);
      if src(j) < src(k) {
        assert lines[src(j)].tag != lines[src(k)].tag;
      } else {
        assert lines[src(k)].tag != lines[src(j)].tag;
      }
    }
  }

  /** Access keeps the valid tags of a set pairwise distinct. */
  lemma AccessPreservesDistinct(lines: seq<Line>, tag: nat)
    requires |lines| >= 1 && DistinctValid(lines)
    ensures DistinctValid(AccessSet(lines, tag).0)
  {
    var h := FindHit(lines, tag);
    if h < |lines| {
      MoveToFrontDistinct(lines, h);
    } else {
      var f := FindFree(lines);
      var k := if f < |lines| then f else |lines| - 1;
      var filled := lines[k := Line(true, tag)];
      forall j, l | 0 <= j < l < |filled| && filled[j].valid && filled[l].valid
        ensures filled[j].tag != filled[l].tag
      {
        if j != k && l != k {
          assert filled[j] == lines[j] && filled[l] == lines[l];
        } else if j == k {
          assert !Holds(lines[l], tag);
        } else {
          assert !Holds(lines[j], tag);
        }
      }
      MoveToFrontDistinct(filled, k);
    }
  }

  /** The block just accessed is resident, and in the most recently used position. */
  lemma {:induction false} AccessTwiceHits(lines: seq<Line>, tag: nat)
    requires |lines| >= 1
    ensures AccessSet(AccessSet(lines, tag).0, tag) == (AccessSet(lines, tag).0, Hit)
  {
    var once := AccessSet(lines, tag).0;
    assert Holds(once[0], tag);
    assert FindHit(once, tag) == 0;
    assert MoveToFront(once, 0) == once;
  }

  /**
   * What the set caches after an access: the accessed tag joins the resident
   * tags, and on an eviction the tag of the old last line leaves them.
   */
  lemma AccessResidentTags(lines: seq<Line>, tag: nat)
    requires |lines| >= 1 && DistinctValid(lines)
    ensures var (r, o) := AccessSet(lines, tag);
      ResidentTags(r) == if o == MissEviction
        then ResidentTags(lines) - {lines[|lines| - 1].tag} + {tag}
        else ResidentTags(lines) + {tag}
  {
    var h := FindHit(lines, tag);
    var f := FindFree(lines);
    if h < |lines| {
      MoveToFrontPermutes(lines, h);
      PermutationResidentTags(MoveToFront(lines, h), lines);
      assert tag in ResidentTags(lines) by { assert lines[h].valid && lines[h].tag == tag; }
    } else {
      var k := if f < |lines| then f else |lines| - 1;
      var filled := lines[k := Line(true, tag)];
      assert AccessSet(lines, tag).0 == MoveToFront(filled, k);
      MoveToFrontPermutes(filled, k);
      PermutationResidentTags(MoveToFront(filled, k), filled);
      ReplaceResidentTags(lines, k, tag);
    }
  }

  /** Reordering the lines of a set does not change what it caches. */
  lemma PermutationResidentTags(a: seq<Line>, b: seq<Line>)
    requires multiset(a) == multiset(b)
    ensures ResidentTags(a) == ResidentTags(b)
  {
    forall t | t in ResidentTags(a) ensures t in ResidentTags(b) {
      var j :| 0 <= j < |a| && a[j].valid && a[j].tag == t;
      assert a[j] in multiset(b);
      var i :| 0 <= i < |b| && b[i] == a[j];
    }
    forall t | t in ResidentTags(b) ensures t in ResidentTags(a) {
      var j :| 0 <= j < |b| && b[j].valid && b[j].tag == t;
      assert b[j] in multiset(a);
      var i :| 0 <= i < |a| && a[i] == b[j];
    }
  }


  /** Overwriting line `k` with `{valid, tag}` replaces the tag of `k` (if it was valid) by `tag`. */
  lemma ReplaceResidentTags(lines: seq<Line>, k: nat, tag: nat)
    requires k < |lines| && DistinctValid(lines)
    ensures ResidentTags(lines[k := Line(true, tag)]) ==
      if lines[k].valid then ResidentTags(lines) - {lines[k].tag} + {tag} else ResidentTags(lines) + {tag}
  {
    var filled := lines[k := Line(true, tag)];
    forall t | t in ResidentTags(filled)
      ensures t in (if lines[k].valid then ResidentTags(lines) - {lines[k].tag} + {tag} else ResidentTags(lines) + {tag})
    {
      var j :| 0 <= j < |filled| && filled[j].valid && filled[j].tag == t;
      if j != k {
        assert lines[j].valid && lines[j].tag == t;
        if lines[k].valid {
          if j < k { assert lines[j].tag != lines[k].tag; } else { assert lines[k].tag != lines[j].tag; }
        }
      }
    }
    forall t | t in (if lines[k].valid then ResidentTags(lines) - {lines[k].tag} + {tag} else ResidentTags(lines) + {tag})
      ensures t in ResidentTags(filled)
    {
      if t == tag {
        assert filled[k].valid && filled[k].tag == tag;
      } else {
        var j :| 0 <= j < |lines| && lines[j].valid && lines[j].tag == t;
        assert j != k;
        assert filled[j] == lines[j];
      }
    }
  }

  /**
   * Tags of invalid lines are never consulted: sets that agree on their valid
   * lines classify an access alike and stay in agreement.
   */
  lemma AccessIgnoresInvalidTags(a: seq<Line>, b: seq<Line>, tag: nat)
    requires |a| >= 1 && Agree(a, b)
    ensures AccessSet(a, tag).1 == AccessSet(b, tag).1
    ensures Agree(AccessSet(a, tag).0, AccessSet(b, tag).0)
  {
    FindHitAgree(a, b, tag);
    FindFreeAgree(a, b);
    var h, f := FindHit(a, tag), FindFree(a);
    if h < |a| {
      MoveToFrontAgree(a, b, h);
    } else {
      var k := if f < |a| then f else |a| - 1;
      MoveToFrontAgree(a[k := Line(true, tag)], b[k := Line(true, tag)], k);
    }
  }

  lemma MoveToFrontAgree(a: seq<Line>, b: seq<Line>, k: nat)
    requires k < |a| && Agree(a, b)
    ensures Agree(MoveToFront(a, k), MoveToFront(b, k))
  {
    var ra, rb := MoveToFront(a, k), MoveToFront(b, k);
    forall j | 0 <= j < |ra| ensures ra[j].valid == rb[j].valid && (ra[j].valid ==> ra[j].tag == rb[j].tag) {
      var i := if j == 0 then k else if j <= k then j - 1 else j;
      assert ra[j] == a[i] && rb[j] == b[i];
    }
  }

  lemma {:induction false} FindHitAgree(a: seq<Line>, b: seq<Line>, tag: nat)
    requires Agree(a, b)
    ensures FindHit(a, tag) == FindHit(b, tag)
    decreases |a|
  {
    if a != [] {
      assert Agree(a[1..], b[1..]) by {
        forall j | 0 <= j < |a| - 1 ensures a[1..][j] == a[j + 1] && b[1..][j] == b[j + 1] { }
      }
      FindHitAgree(a[1..], b[1..], tag);
    }
  }

  lemma {:induction false} FindFreeAgree(a: seq<Line>, b: seq<Line>)
    requires Agree(a, b)
    ensures FindFree(a) == FindFree(b)
    decreases |a|
  {
    if a != [] {
      assert Agree(a[1..], b[1..]) by {
        forall j | 0 <= j < |a| - 1 ensures a[1..][j] == a[j + 1] && b[1..][j] == b[j + 1] { }
      }
      FindFreeAgree(a[1..], b[1..]);
    }
  }

  /** Direct-mapped sets (`E == 1`): after one tag is accessed, any other tag evicts it. */
  lemma DirectMappedConflictEvicts(lines: seq<Line>, t1: nat, t2: nat)
    requires |lines| == 1 && t1 != t2
    ensures AccessSet(AccessSet(lines, t1).0, t2).1 == MissEviction
  {
    var once := AccessSet(lines, t1).0;
    assert once == [Line(true, t1)];
    assert !Resident(once, t2);
  }
}
