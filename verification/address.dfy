/**
 * Cache geometry and the split of an address into tag, set index and block
 * offset (csim.c, `access`, first two lines).
 */
module Address {
  import opened Arith

  /** Width of the simulator's `address` type (`unsigned long`). */
  const AddressBits: nat := 64

  /** A value of type `unsigned long`. */
  type Addr = a: nat | a < 0x1_0000_0000_0000_0000

  /** Set-index bits `s`, lines per set `E`, block-offset bits `b`. */
  datatype Geometry = Geometry(s: nat, E: nat, b: nat)

  /**
   * What the simulator relies on without checking it: `E >= 1` because a full
   * set evicts line `E - 1`; `s < 31` because the set count is the `int`
   * shift `1 << s`; `s + b < 64` because `addr >> (b + s)` is only defined for
   * shift widths below the width of `unsigned long`.
   */
  predicate ValidGeometry(g: Geometry) {
    g.E >= 1 && g.s < 31 && g.s + g.b < AddressBits
  }

  lemma AddressBound()
    ensures Pow2(AddressBits) == 0x1_0000_0000_0000_0000
  {
    assert Pow2(4) == 16;
    assert Pow2(8) == 256 by { Pow2Add(4, 4); }
    assert Pow2(16) == 0x1_0000 by { Pow2Add(8, 8); }
    assert Pow2(32) == 0x1_0000_0000 by { Pow2Add(16, 16); }
    Pow2Add(32, 32);
  }

  /** Number of sets, `1 << s`. */
  function SetCount(g: Geometry): (n: nat)
    ensures n >= 1
  {
    Pow2(g.s)
  }

  /** `(addr >> b) & ((1 << s) - 1)`. */
  function SetIndex(g: Geometry, addr: Addr): (i: nat)
    ensures i < SetCount(g)
  {
    Shr(addr, g.b) % Pow2(g.s)
  }

  /** `addr >> (b + s)`: the bits above the set index. */
  function Tag(g: Geometry, addr: Addr): (t: nat)
    requires g.s + g.b <= AddressBits
    ensures t < Pow2(AddressBits - g.s - g.b)
  {
    TagBound(g, addr);
    Shr(addr, g.s + g.b)
  }

  lemma TagBound(g: Geometry, addr: Addr)
    requires g.s + g.b <= AddressBits
    ensures Shr(addr, g.s + g.b) < Pow2(AddressBits - g.s - g.b)
  {
    var d, e := Pow2(g.s + g.b), Pow2(AddressBits - g.s - g.b);
    assert d * e == 0x1_0000_0000_0000_0000 by {
      AddressBound();
      Pow2Add(g.s + g.b, AddressBits - g.s - g.b);
    }
    DivBound(addr, d, e);
  }

  /** The low `b` bits, which select a byte inside the block and never affect a lookup. */
  function Offset(g: Geometry, addr: Addr): (o: nat)
    ensures o < Pow2(g.b)
  {
    addr % Pow2(g.b)
  }

  /** The address whose fields are tag `t`, set index `i` and offset `o`. */
  function Join(g: Geometry, t: nat, i: nat, o: nat): nat {
    (t * Pow2(g.s) + i) * Pow2(g.b) + o
  }

  /** The three fields together are the whole address: nothing is lost by the split. */
  lemma SplitJoin(g: Geometry, addr: Addr)
    requires g.s + g.b <= AddressBits
    ensures Join(g, Tag(g, addr), SetIndex(g, addr), Offset(g, addr)) == addr
  {
    var B, S := Pow2(g.b), Pow2(g.s);
    var BS := Pow2(g.s + g.b);
    assert BS == B * S by { Pow2Add(g.b, g.s); }
    SplitParts(addr, B, S, BS, Tag(g, addr), SetIndex(g, addr), Offset(g, addr));
  }

  lemma SplitParts(x: nat, B: nat, S: nat, BS: nat, t: nat, i: nat, o: nat)
    requires B > 0 && S > 0 && BS == B * S
    requires t == x / BS && i == (x / B) % S && o == x % B
    ensures (t * S + i) * B + o == x
  {
    var hi := x / B;
    assert x == hi * B + x % B;
    assert hi == (hi / S) * S + hi % S;
    DivDiv(x, B, S);
  }

  /** Splitting an assembled address gives back its fields. */
  lemma JoinSplit(g: Geometry, t: nat, i: nat, o: nat)
    requires g.s + g.b <= AddressBits
    requires i < Pow2(g.s) && o < Pow2(g.b)
    requires Join(g, t, i, o) < 0x1_0000_0000_0000_0000
    ensures Tag(g, Join(g, t, i, o) as Addr) == t
    ensures SetIndex(g, Join(g, t, i, o) as Addr) == i
    ensures Offset(g, Join(g, t, i, o) as Addr) == o
  {
    var B, S := Pow2(g.b), Pow2(g.s);
    var addr := Join(g, t, i, o);
    DivModUnique(addr, B, t * S + i, o);
    DivModUnique(t * S + i, S, t, i);
    DivDiv(addr, B, S);
    Pow2Add(g.s, g.b);
    assert B * S == Pow2(g.s + g.b);
  }
}
