/** Zobrist position hashing: one fixed 64-bit key per (player, position),
    combined with bitwise XOR. The engine updates its hash incrementally; the
    reference value is the XOR of the keys of all stones on the board.

    A 64-bit word is represented by its unsigned value, and XOR by its
    digit-by-digit definition on naturals, so that the laws of XOR are
    proved here by induction rather than rediscovered bit by bit by the
    solver. `XorBound` shows that XOR never leaves the width of its
    operands. */
module Zobrist {
  import opened GoTypes
  import opened Geometry
  import opened Seqs

  /** An unsigned machine word, as its value. */
  type Word = nat

  /** Bitwise exclusive or: the lowest binary digits combine, the rest
      recurses on the higher digits. */
  function Xor(a: Word, b: Word): Word
    decreases a + b
  {
    if a == 0 && b == 0 then 0
    else 2 * Xor(a / 2, b / 2) + (if a % 2 == b % 2 then 0 else 1)
  }

  /** `2^k`. */
  function Pow2(k: nat): (r: nat)
    ensures r >= 1
  {
    if k == 0 then 1 else 2 * Pow2(k - 1)
  }

  /* ---------- the laws of XOR ---------- */

  /** The lowest digit and the higher digits of `Xor(a, b)`. */
  lemma XorDigits(a: Word, b: Word)
    ensures Xor(a, b) % 2 == (if a % 2 == b % 2 then 0 else 1)
    ensures Xor(a, b) / 2 == Xor(a / 2, b / 2)
  {
  }

  lemma {:induction false} XorZero(a: Word)
    ensures Xor(a, 0) == a && Xor(0, a) == a
    decreases a
  {
    if a != 0 {
      XorZero(a / 2);
    }
  }

  lemma {:induction false} XorSelf(a: Word)
    ensures Xor(a, a) == 0
    decreases a
  {
    if a != 0 {
      XorSelf(a / 2);
    }
  }

  lemma {:induction false} XorComm(a: Word, b: Word)
    ensures Xor(a, b) == Xor(b, a)
    decreases a + b
  {
    if a != 0 || b != 0 {
      XorComm(a / 2, b / 2);
    }
  }

  lemma {:induction false} XorAssoc(a: Word, b: Word, c: Word)
    ensures Xor(Xor(a, b), c) == Xor(a, Xor(b, c))
    decreases a + b + c
  {
    if a != 0 || b != 0 || c != 0 {
      var x, y := Xor(a, b), Xor(b, c);
      XorDigits(a, b);
      XorDigits(b, c);
      XorDigits(x, c);
      XorDigits(a, y);
      XorAssoc(a / 2, b / 2, c / 2);
    }
  }

  /** XOR of two `k`-bit words is a `k`-bit word: the hash stays 64 bits wide. */
  lemma {:induction false} XorBound(a: Word, b: Word, k: nat)
    requires a < Pow2(k) && b < Pow2(k)
    ensures Xor(a, b) < Pow2(k)
    decreases k
  {
    if k > 0 && (a != 0 || b != 0) {
      XorBound(a / 2, b / 2, k - 1);
    }
  }

  /** `hash_lookup`: a key table per player. Its concrete pseudo-random contents
      are not modelled; any table works. */
  datatype ZobristTable = ZobristTable(white: map<Pos, Word>, black: map<Pos, Word>)

  /** The key of a cell content; an empty cell contributes nothing. */
  function Key(t: ZobristTable, c: Color, p: Pos): Word {
    match c
    case Empty => 0
    case Black => if p in t.black then t.black[p] else 0
    case White => if p in t.white then t.white[p] else 0
  }

  /** `_update_hash`: XOR the key of `(c, p)` into `h`. Applying it twice with
      the same stone gives `h` back, and it changes `h` unless the key is 0. */
  function Toggle(h: Word, t: ZobristTable, c: Player, p: Pos): (r: Word)
    ensures Xor(r, Key(t, c, p)) == h
    ensures Key(t, c, p) == 0 || r != h
  {
    var k := Key(t, c, p);
    XorAssoc(h, k, k);
    XorSelf(k);
    XorZero(h);
    XorAssoc(h, h, k);
    XorSelf(h);
    XorZero(k);
    Xor(h, k)
  }

  /** The key of the content of cell `p` of `b` (zero off the board). */
  function CellKey(t: ZobristTable, b: Board, p: Pos): Word {
    if p in b then Key(t, b[p], p) else 0
  }

  /** XOR of the keys of the contents of the cells `cs`. */
  function XorOver(t: ZobristTable, b: Board, cs: seq<Pos>): Word {
    if cs == [] then 0 else Xor(CellKey(t, b, cs[0]), XorOver(t, b, cs[1..]))
  }

  /** The hash of a board computed from scratch. */
  function HashOf(t: ZobristTable, n: nat, b: Board): Word {
    XorOver(t, b, AllCells(n))
  }

  /** Changing one listed cell changes the XOR by exactly the old and new keys. */
  lemma {:induction false} XorOverUpdate(t: ZobristTable, b: Board, cs: seq<Pos>, p: Pos, c: Color)
    requires Distinct(cs)
    ensures p in cs ==> XorOver(t, b[p := c], cs) == Xor(Xor(XorOver(t, b, cs), CellKey(t, b, p)), Key(t, c, p))
    ensures p !in cs ==> XorOver(t, b[p := c], cs) == XorOver(t, b, cs)
  {
    if cs != [] {
      XorOverUpdate(t, b, cs[1..], p, c);
      var y := XorOver(t, b, cs[1..]);
      if cs[0] == p {
        assert p !in cs[1..];
        var k := CellKey(t, b, p);
        // k ^ y ^ k ^ key == y ^ key
        XorAssoc(k, y, k);
        XorComm(y, k);
        XorAssoc(k, k, y);
        XorSelf(k);
        XorZero(y);
        XorComm(y, Key(t, c, p));
      } else if p in cs[1..] {
        var k, was, now := CellKey(t, b, cs[0]), CellKey(t, b, p), Key(t, c, p);
        // k ^ ((y ^ was) ^ now) == ((k ^ y) ^ was) ^ now
        XorAssoc(k, Xor(y, was), now);
        XorAssoc(k, y, was);
      }
    }
  }

  /** Emptying a set of cells removes exactly their keys from the XOR. */
  lemma {:induction false} XorOverClear(t: ZobristTable, b: Board, b': Board, cs: seq<Pos>, g: set<Pos>)
    requires forall q :: q in cs ==> CellKey(t, b', q) == if q in g then 0 else CellKey(t, b, q)
    ensures XorOver(t, b', cs) == Xor(XorOver(t, b, cs), XorOver(t, b, Within(cs, g)))
  {
    if cs == [] {
      assert Within(cs, g) == [];
      XorZero(0);
    } else {
      XorOverClear(t, b, b', cs[1..], g);
      var k, y, m := CellKey(t, b, cs[0]), XorOver(t, b, cs[1..]), XorOver(t, b, Within(cs[1..], g));
      var w := Within(cs, g);
      if cs[0] in g {
        assert w == [cs[0]] + Within(cs[1..], g);
        assert w != [] && w[0] == cs[0] && w[1..] == Within(cs[1..], g);
        // 0 ^ (y ^ m) == (k ^ y) ^ (k ^ m)
        XorZero(Xor(y, m));
        XorAssoc(k, y, Xor(k, m));
        XorAssoc(y, k, m);
        XorComm(y, k);
        XorAssoc(k, y, m);
        XorAssoc(k, k, Xor(y, m));
        XorSelf(k);
      } else {
        assert w == Within(cs[1..], g);
        // k ^ (y ^ m) == (k ^ y) ^ m
        XorAssoc(k, y, m);
      }
    }
  }

  /** A board without stones hashes to zero. */
  lemma {:induction false} XorOverNoStones(t: ZobristTable, b: Board, cs: seq<Pos>)
    requires forall q :: q in cs ==> CellKey(t, b, q) == 0
    ensures XorOver(t, b, cs) == 0
  {
    if cs != [] {
      XorOverNoStones(t, b, cs[1..]);
      XorZero(0);
    }
  }

  /** Placing a stone on an empty cell toggles exactly that stone's key. */
  lemma PlaceToggles(t: ZobristTable, n: nat, b: Board, p: Pos, c: Player)
    requires b.Keys == AllPos(n) && OnBoard(n, p) && b[p] == Empty
    ensures HashOf(t, n, b[p := c]) == Toggle(HashOf(t, n, b), t, c, p)
  {
    AllCellsFacts(n);
    XorOverUpdate(t, b, AllCells(n), p, c);
    XorZero(HashOf(t, n, b));
  }

  /** Placing a stone and later clearing that cell gives back the hash. */
  lemma PlaceThenClearRestores(t: ZobristTable, n: nat, b: Board, p: Pos, c: Player)
    requires b.Keys == AllPos(n) && OnBoard(n, p) && b[p] == Empty
    ensures Toggle(HashOf(t, n, b[p := c]), t, c, p) == HashOf(t, n, b)
    ensures HashOf(t, n, b[p := c][p := Empty]) == HashOf(t, n, b)
  {
    PlaceToggles(t, n, b, p, c);
    assert b[p := c][p := Empty] == b;
  }
}
