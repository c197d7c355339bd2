// The encoder's side of the 4xm P-block partition: a partition written to the three streams is read back.
module PBlockCoding {
  import opened Bits
  import opened PBlockTree

  function SymbolBits(newer: bool, symbol: nat, lw: nat, lh: nat): seq<bool>
    requires SizeOk(lw, lh) && symbol < 7
  {
    var (code, len) := BlockTypeTab(newer, SizeToIndex(lh, lw), symbol);
    Word(code, len)
  }

  /** Gives the code word of a symbol for a block size. */
  type Coder = (nat, nat, nat) -> seq<bool>

  function TableCoder(newer: bool): Coder {
    (symbol: nat, lw: nat, lh: nat) => if SizeOk(lw, lh) && symbol < 7 then SymbolBits(newer, symbol, lw, lh) else []
  }

  function EmitBits(W: Coder, t: Tree, lw: nat, lh: nat): seq<bool>
    decreases t
  {
    W(Symbol(t), lw, lh) +
    match t
    case SplitRows(a, b) => if lh == 0 then [] else EmitBits(W, a, lw, lh - 1) + EmitBits(W, b, lw, lh - 1)
    case SplitColumns(a, b) => if lw == 0 then [] else EmitBits(W, a, lw - 1, lh) + EmitBits(W, b, lw - 1, lh)
    case _ => []
  }

  function EmitBytes(t: Tree): seq<Byte> {
    match t
    case SplitRows(a, b) => EmitBytes(a) + EmitBytes(b)
    case SplitColumns(a, b) => EmitBytes(a) + EmitBytes(b)
    case _ => LeafBytes(t)
  }

  function EmitWords(t: Tree): seq<Word16> {
    match t
    case SplitRows(a, b) => EmitWords(a) + EmitWords(b)
    case SplitColumns(a, b) => EmitWords(a) + EmitWords(b)
    case _ => LeafWords(t)
  }

  lemma HoldsBoth<T>(stream: nat -> T, pos: nat, a: seq<T>, b: seq<T>)
    requires Holds(stream, pos, a + b)
    ensures Holds(stream, pos, a) && Holds(stream, pos + |a|, b)
  {
    forall k | 0 <= k < |a| ensures stream(pos + k) == a[k] {
      assert (a + b)[k] == a[k];
    }
    forall k | 0 <= k < |b| ensures stream(pos + |a| + k) == b[k] {
      assert (a + b)[|a| + k] == b[k];
      assert stream(pos + (|a| + k)) == b[k];
    }
  }

  lemma {:induction false} BitsHeld(bits: nat -> bool, pos: nat, v: nat, len: nat)
    requires Holds(bits, pos, Word(v, len)) && v < Pow2(len)
    ensures BitsValue(bits, pos, len) == v
  {
    if len == 0 {
    } else {
      assert Word(v, len)[len - 1] == (v % 2 == 1);
      assert Holds(bits, pos, Word(v / 2, len - 1)) by {
        var head := Word(v / 2, len - 1);
        forall k | 0 <= k < |head| ensures bits(pos + k) == head[k] {
          assert Word(v, len)[k] == head[k];
        }
      }
      BitsHeld(bits, pos, v / 2, len - 1);
    }
  }

  lemma CodeFits(newer: bool, symbol: nat, lw: nat, lh: nat)
    requires SizeOk(lw, lh) && Allowed(symbol, lw, lh)
    ensures var (code, len) := BlockTypeTab(newer, SizeToIndex(lh, lw), symbol); len > 0 && code < Pow2(len)
  {
  }

  /** A symbol's code word is read as that symbol, whatever follows. */
  lemma SymbolRead(newer: bool, symbol: nat, bits: nat -> bool, pos: nat, lw: nat, lh: nat)
    requires SizeOk(lw, lh) && Allowed(symbol, lw, lh) && Holds(bits, pos, SymbolBits(newer, symbol, lw, lh))
    ensures ReadSymbol(newer, bits, pos, lw, lh) == (symbol, pos + |SymbolBits(newer, symbol, lw, lh)|)
  {
    var index := SizeToIndex(lh, lw);
    var (code, len) := BlockTypeTab(newer, index, symbol);
    CodeFits(newer, symbol, lw, lh);
    BitsHeld(bits, pos, code, len);
    ExactlyOneMatch(newer, index, bits, pos);
    assert Matches(newer, index, bits, pos, symbol);
  }

  /** If the bits hold the code word of a symbol here, that symbol is what S reads. */
  ghost predicate CodedAt(W: Coder, bits: nat -> bool, S: Streams, symbol: nat, pos: nat, lw: nat, lh: nat) {
    SizeOk(lw, lh) && Allowed(symbol, lw, lh) && Holds(bits, pos, W(symbol, lw, lh)) ==>
      S.next(pos, lw, lh) == (symbol, pos + |W(symbol, lw, lh)|)
  }

  ghost predicate Coded(W: Coder, bits: nat -> bool, S: Streams) {
    forall symbol: nat, pos: nat, lw: nat, lh: nat {:trigger CodedAt(W, bits, S, symbol, pos, lw, lh)} ::
      CodedAt(W, bits, S, symbol, pos, lw, lh)
  }

  /** The tables of either format decode what they encode. */
  lemma TablesCoded(newer: bool, bits: nat -> bool, bytes: nat -> Byte, words: nat -> Word16)
    ensures Coded(TableCoder(newer), bits, FromBits(newer, bits, bytes, words))
  {
    forall symbol: nat, pos: nat, lw: nat, lh: nat
      ensures CodedAt(TableCoder(newer), bits, FromBits(newer, bits, bytes, words), symbol, pos, lw, lh)
    {
      TableSymbol(newer, bits, bytes, words, symbol, pos, lw, lh);
    }
  }

  lemma TableSymbol(newer: bool, bits: nat -> bool, bytes: nat -> Byte, words: nat -> Word16, symbol: nat, pos: nat,
                    lw: nat, lh: nat)
    ensures CodedAt(TableCoder(newer), bits, FromBits(newer, bits, bytes, words), symbol, pos, lw, lh)
  {
    if SizeOk(lw, lh) && Allowed(symbol, lw, lh) && Holds(bits, pos, TableCoder(newer)(symbol, lw, lh)) {
      assert TableCoder(newer)(symbol, lw, lh) == SymbolBits(newer, symbol, lw, lh);
      SymbolRead(newer, symbol, bits, pos, lw, lh);
    }
  }

  ghost predicate Written(W: Coder, bits: nat -> bool, S: Streams, cur: Cursor, t: Tree, lw: nat, lh: nat) {
    && Holds(bits, cur.bit, EmitBits(W, t, lw, lh))
    && Holds(S.bytes, cur.byte, EmitBytes(t))
    && Holds(S.words, cur.word, EmitWords(t))
  }

  function Ended(W: Coder, cur: Cursor, t: Tree, lw: nat, lh: nat): Cursor {
    Advance(cur, |EmitBits(W, t, lw, lh)|, |EmitBytes(t)|, |EmitWords(t)|)
  }

  lemma HoldsThree<T>(stream: nat -> T, pos: nat, a: seq<T>, b: seq<T>, c: seq<T>)
    requires Holds(stream, pos, a + (b + c))
    ensures Holds(stream, pos, a) && Holds(stream, pos + |a|, b) && Holds(stream, pos + |a| + |b|, c)
  {
    HoldsBoth(stream, pos, a, b + c);
    HoldsBoth(stream, pos + |a|, b, c);
  }

  lemma WrittenSplit(W: Coder, bits: nat -> bool, S: Streams, cur: Cursor, head: seq<bool>, a: Tree, b: Tree, lw: nat,
                     lh: nat)
    requires Holds(bits, cur.bit, head + (EmitBits(W, a, lw, lh) + EmitBits(W, b, lw, lh)))
    requires Holds(S.bytes, cur.byte, EmitBytes(a) + EmitBytes(b))
    requires Holds(S.words, cur.word, EmitWords(a) + EmitWords(b))
    ensures Holds(bits, cur.bit, head)
    ensures Written(W, bits, S, Advance(cur, |head|, 0, 0), a, lw, lh)
    ensures Written(W, bits, S, Ended(W, Advance(cur, |head|, 0, 0), a, lw, lh), b, lw, lh)
  {
    StreamsSplit(bits, S, cur, head, EmitBits(W, a, lw, lh), EmitBits(W, b, lw, lh), EmitBytes(a), EmitBytes(b),
      EmitWords(a), EmitWords(b));
  }

  lemma StreamsSplit(bits: nat -> bool, S: Streams, cur: Cursor, head: seq<bool>, ea: seq<bool>, eb: seq<bool>,
      ba: seq<Byte>, bb: seq<Byte>, wa: seq<Word16>, wb: seq<Word16>)
    requires Holds(bits, cur.bit, head + (ea + eb)) && Holds(S.bytes, cur.byte, ba + bb)
    requires Holds(S.words, cur.word, wa + wb)
    ensures Holds(bits, cur.bit, head)
    ensures var c0 := Advance(cur, |head|, 0, 0);
      Holds(bits, c0.bit, ea) && Holds(S.bytes, c0.byte, ba) && Holds(S.words, c0.word, wa)
    ensures var c1 := Advance(Advance(cur, |head|, 0, 0), |ea|, |ba|, |wa|);
      Holds(bits, c1.bit, eb) && Holds(S.bytes, c1.byte, bb) && Holds(S.words, c1.word, wb)
  {
    HoldsThree(bits, cur.bit, head, ea, eb);
    HoldsBoth(S.bytes, cur.byte, ba, bb);
    HoldsBoth(S.words, cur.word, wa, wb);
  }

  /** Any legal partition, once written to the three streams, is what is read back, and nothing more. */
  lemma {:induction false} WrittenIsRead(g: Geometry, W: Coder, bits: nat -> bool, S: Streams, cur: Cursor,
      t: Tree, y: nat, x: nat, lw: nat, lh: nat)
    requires Coded(W, bits, S) && Legal(g, t, y, x, lw, lh) && Written(W, bits, S, cur, t, lw, lh)
    ensures Reads(S, cur, t, lw, lh) && After(S, cur, t, lw, lh) == Ended(W, cur, t, lw, lh)
    decreases t
  {
    match t {
      case SplitRows(a, b) =>
        var c0 := Advance(cur, |W(1, lw, lh)|, 0, 0);
        var c1 := Ended(W, c0, a, lw, lh - 1);
        RowsWritten(g, W, bits, S, cur, a, b, y, x, lw, lh, c0, c1);
        WrittenIsRead(g, W, bits, S, c0, a, y, x, lw, lh - 1);
        WrittenIsRead(g, W, bits, S, c1, b, y + Pow2(lh - 1), x, lw, lh - 1);
        RowsAreRead(W, S, cur, a, b, lw, lh);
      case SplitColumns(a, b) =>
        var c0 := Advance(cur, |W(2, lw, lh)|, 0, 0);
        var c1 := Ended(W, c0, a, lw - 1, lh);
        ColumnsWritten(g, W, bits, S, cur, a, b, y, x, lw, lh, c0, c1);
        WrittenIsRead(g, W, bits, S, c0, a, y, x, lw - 1, lh);
        WrittenIsRead(g, W, bits, S, c1, b, y, x + Pow2(lw - 1), lw - 1, lh);
        ColumnsAreRead(W, S, cur, a, b, lw, lh);
      case _ =>
        LeafIsRead(g, W, bits, S, cur, t, y, x, lw, lh);
    }
  }

  /** A written partition into rows: its symbol, then its two halves where the streams stand then. */
  lemma RowsWritten(g: Geometry, W: Coder, bits: nat -> bool, S: Streams, cur: Cursor, a: Tree, b: Tree, y: nat, x: nat,
                    lw: nat, lh: nat,
      c0: Cursor, c1: Cursor)
    requires Coded(W, bits, S) && Legal(g, SplitRows(a, b), y, x, lw, lh)
    requires Written(W, bits, S, cur, SplitRows(a, b), lw, lh)
    requires c0 == Advance(cur, |W(1, lw, lh)|, 0, 0) && c1 == Ended(W, c0, a, lw, lh - 1)
    ensures S.next(cur.bit, lw, lh).0 == 1 && AfterSymbol(S, cur, lw, lh) == c0
    ensures Written(W, bits, S, c0, a, lw, lh - 1) && Written(W, bits, S, c1, b, lw, lh - 1)
  {
    SymbolIsRead(W, bits, S, cur, SplitRows(a, b), lw, lh);
    WrittenSplit(W, bits, S, cur, W(1, lw, lh), a, b, lw, lh - 1);
  }

  lemma ColumnsWritten(g: Geometry, W: Coder, bits: nat -> bool, S: Streams, cur: Cursor, a: Tree, b: Tree, y: nat,
                       x: nat, lw: nat, lh: nat,
      c0: Cursor, c1: Cursor)
    requires Coded(W, bits, S) && Legal(g, SplitColumns(a, b), y, x, lw, lh)
    requires Written(W, bits, S, cur, SplitColumns(a, b), lw, lh)
    requires c0 == Advance(cur, |W(2, lw, lh)|, 0, 0) && c1 == Ended(W, c0, a, lw - 1, lh)
    ensures S.next(cur.bit, lw, lh).0 == 2 && AfterSymbol(S, cur, lw, lh) == c0
    ensures Written(W, bits, S, c0, a, lw - 1, lh) && Written(W, bits, S, c1, b, lw - 1, lh)
  {
    SymbolIsRead(W, bits, S, cur, SplitColumns(a, b), lw, lh);
    WrittenSplit(W, bits, S, cur, W(2, lw, lh), a, b, lw - 1, lh);
  }

  lemma SymbolIsRead(W: Coder, bits: nat -> bool, S: Streams, cur: Cursor, t: Tree, lw: nat, lh: nat)
    requires Coded(W, bits, S) && SizeOk(lw, lh) && Allowed(Symbol(t), lw, lh) && Written(W, bits, S, cur, t, lw, lh)
    ensures S.next(cur.bit, lw, lh) == (Symbol(t), cur.bit + |W(Symbol(t), lw, lh)|)
    ensures AfterSymbol(S, cur, lw, lh) == Advance(cur, |W(Symbol(t), lw, lh)|, 0, 0)
  {
    HoldsBoth(bits, cur.bit, W(Symbol(t), lw, lh), EmitBits(W, t, lw, lh)[|W(Symbol(t), lw, lh)|..]);
    assert CodedAt(W, bits, S, Symbol(t), cur.bit, lw, lh);
  }

  lemma EndedOfRows(W: Coder, cur: Cursor, a: Tree, b: Tree, lw: nat, lh: nat)
    requires 0 < lh
    ensures Ended(W, cur, SplitRows(a, b), lw, lh)
       == Ended(W, Ended(W, Advance(cur, |W(1, lw, lh)|, 0, 0), a, lw, lh - 1), b, lw, lh - 1)
  {
  }

  lemma RowsAreRead(W: Coder, S: Streams, cur: Cursor, a: Tree, b: Tree, lw: nat, lh: nat)
    requires 0 < lh && S.next(cur.bit, lw, lh).0 == 1
    requires AfterSymbol(S, cur, lw, lh) == Advance(cur, |W(1, lw, lh)|, 0, 0)
    requires var c0 := AfterSymbol(S, cur, lw, lh);
      Reads(S, c0, a, lw, lh - 1) && After(S, c0, a, lw, lh - 1) == Ended(W, c0, a, lw, lh - 1)
    requires var c1 := Ended(W, AfterSymbol(S, cur, lw, lh), a, lw, lh - 1);
      Reads(S, c1, b, lw, lh - 1) && After(S, c1, b, lw, lh - 1) == Ended(W, c1, b, lw, lh - 1)
    ensures Reads(S, cur, SplitRows(a, b), lw, lh)
    ensures After(S, cur, SplitRows(a, b), lw, lh) == Ended(W, cur, SplitRows(a, b), lw, lh)
  {
    EndedOfRows(W, cur, a, b, lw, lh);
  }

  lemma EndedOfColumns(W: Coder, cur: Cursor, a: Tree, b: Tree, lw: nat, lh: nat)
    requires 0 < lw
    ensures Ended(W, cur, SplitColumns(a, b), lw, lh)
       == Ended(W, Ended(W, Advance(cur, |W(2, lw, lh)|, 0, 0), a, lw - 1, lh), b, lw - 1, lh)
  {
  }

  lemma ColumnsAreRead(W: Coder, S: Streams, cur: Cursor, a: Tree, b: Tree, lw: nat, lh: nat)
    requires 0 < lw && S.next(cur.bit, lw, lh).0 == 2
    requires AfterSymbol(S, cur, lw, lh) == Advance(cur, |W(2, lw, lh)|, 0, 0)
    requires var c0 := AfterSymbol(S, cur, lw, lh);
      Reads(S, c0, a, lw - 1, lh) && After(S, c0, a, lw - 1, lh) == Ended(W, c0, a, lw - 1, lh)
    requires var c1 := Ended(W, AfterSymbol(S, cur, lw, lh), a, lw - 1, lh);
      Reads(S, c1, b, lw - 1, lh) && After(S, c1, b, lw - 1, lh) == Ended(W, c1, b, lw - 1, lh)
    ensures Reads(S, cur, SplitColumns(a, b), lw, lh)
    ensures After(S, cur, SplitColumns(a, b), lw, lh) == Ended(W, cur, SplitColumns(a, b), lw, lh)
  {
    EndedOfColumns(W, cur, a, b, lw, lh);
  }

  lemma LeafIsRead(g: Geometry, W: Coder, bits: nat -> bool, S: Streams, cur: Cursor, t: Tree, y: nat, x: nat, lw: nat,
                   lh: nat)
    requires Coded(W, bits, S) && Legal(g, t, y, x, lw, lh) && Written(W, bits, S, cur, t, lw, lh)
    requires !t.SplitRows? && !t.SplitColumns?
    ensures Reads(S, cur, t, lw, lh) && After(S, cur, t, lw, lh) == Ended(W, cur, t, lw, lh)
  {
    assert EmitBits(W, t, lw, lh) == W(Symbol(t), lw, lh);
    assert CodedAt(W, bits, S, Symbol(t), cur.bit, lw, lh);
  }
}
