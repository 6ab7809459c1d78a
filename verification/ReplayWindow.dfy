/**
 The anti-replay window of an operator: 256 bits packed big-endian into 32 bytes,
 standing for the unbounded set of sequence numbers accepted so far.  Bit 0 is the
 most significant bit of byte 0 and stands for the highest accepted number; bit i
 stands for that number minus i.
 */
module ReplayWindow {
  import opened Wrappers

  const WINDOW_BYTES: nat := 32
  const WINDOW_BITS: nat := 256

  type uint64 = x: int | 0 <= x < 0x1_0000_0000_0000_0000
  /** The signed column in which the unsigned high-water mark is stored. */
  type bigint = x: int | -0x8000_0000_0000_0000 <= x < 0x8000_0000_0000_0000

  /** A Go conversion between uint64 and int64 keeps the bit pattern. */
  function ToBigint(x: uint64): bigint {
    if x < 0x8000_0000_0000_0000 then x else x - 0x1_0000_0000_0000_0000
  }

  function FromBigint(x: bigint): (u: uint64)
    ensures ToBigint(u) == x
  {
    if x < 0 then x + 0x1_0000_0000_0000_0000 else x
  }

  // ---------------------------------------------------------------------------
  // Bits inside bytes
  // ---------------------------------------------------------------------------

  function Mask(pos: nat): bv8 {
    (1 as bv8) << (7 - pos % 8)
  }

  predicate GetBit(b: seq<bv8>, pos: nat) {
    pos / 8 < |b| && (b[pos / 8] & Mask(pos)) != 0
  }

  function Bits(b: seq<bv8>): (bits: seq<bool>)
    ensures |bits| == 8 * |b|
  {
    seq(8 * |b|, pos requires 0 <= pos < 8 * |b| => GetBit(b, pos))
  }

  /** Position pos is in byte pos / 8, counted there from the highest bit. */
  lemma BitsReadFromTheTop(b: seq<bv8>, pos: nat)
    requires pos < 8 * |b|
    ensures Bits(b)[pos] <==> (b[pos / 8] & [128 as bv8, 64, 32, 16, 8, 4, 2, 1][pos % 8]) != 0
  {
  }

  lemma OrMask(x: bv8, p: nat, q: nat)
    ensures ((x | Mask(p)) & Mask(q)) != 0 <==> p % 8 == q % 8 || (x & Mask(q)) != 0
  {
  }

  /** Sets one bit and no other; a position past the end is ignored. */
  method SetBit(b: array<bv8>, pos: nat)
    modifies b
    ensures Bits(b[..]) == if pos < 8 * b.Length then Bits(old(b[..]))[pos := true] else Bits(old(b[..]))
  {
    if pos / 8 < b.Length {
      b[pos / 8] := b[pos / 8] | Mask(pos);
      forall q: nat | q < 8 * b.Length
        ensures GetBit(b[..], q) <==> q == pos || GetBit(old(b[..]), q)
      {
        OrMask(old(b[pos / 8]), pos, q);
      }
    }
  }

  /** Every bit moved n places towards higher positions, dropping what falls off the end. */
  function Shifted(bits: seq<bool>, n: nat): seq<bool> {
    seq(|bits|, i requires 0 <= i < |bits| => n <= i && bits[i - n])
  }

  method ShiftRight(b: array<bv8>, n: nat) returns (out: array<bv8>)
    ensures fresh(out) && out.Length == b.Length
    ensures Bits(out[..]) == Shifted(Bits(b[..]), n)
  {
    hide Mask;
    out := new bv8[b.Length](_ => 0);
    var total := 8 * b.Length;
    for pos := 0 to total
      invariant fresh(out) && out.Length == b.Length
      invariant b[..] == old(b[..])
      invariant forall q | 0 <= q < total :: Bits(out[..])[q] <==> n <= q < n + pos && Bits(b[..])[q - n]
    {
      if GetBit(b[..], pos) {
        var np := pos + n;
        if np < total {
          SetBit(out, np);
        }
      }
    }
  }

  // ---------------------------------------------------------------------------
  // One step of the window
  // ---------------------------------------------------------------------------

  /** The stored window row, with its bytes unpacked. */
  datatype Row = Row(high: uint64, bits: seq<bool>)

  function Blank(): seq<bool> {
    seq(WINDOW_BITS, _ => false)
  }

  /** The column defaults: nothing seen yet. */
  function ZeroRow(): Row {
    Row(0, Blank())
  }

  function Advance(row: Row, s: uint64): Option<Row> {
    if |row.bits| != WINDOW_BITS then None
    else if row.high == 0 && !row.bits[0] then Some(Row(s, Blank()[0 := true]))
    else if s > row.high then Some(Row(s, Shifted(row.bits, s - row.high)[0 := true]))
    else if s == row.high || row.high - s >= WINDOW_BITS || row.bits[row.high - s] then None
    else Some(row.(bits := row.bits[row.high - s := true]))
  }

  /** The byte-level step, by in-place updates of a copy of the window. */
  method AdvanceWindow(seqHigh: uint64, window: seq<bv8>, s: uint64)
    returns (newHigh: uint64, newWindow: seq<bv8>, ok: bool)
    ensures ok <==> Advance(Row(seqHigh, Bits(window)), s).Some?
    ensures ok ==> Advance(Row(seqHigh, Bits(window)), s) == Some(Row(newHigh, Bits(newWindow)))
    ensures ok ==> |newWindow| == WINDOW_BYTES
  {
    if |window| != WINDOW_BYTES {
      return 0, [], false;
    }
    var w := new bv8[WINDOW_BYTES](i requires 0 <= i < |window| => window[i]);
    assert w[..] == window;
    var virgin := seqHigh == 0 && !GetBit(w[..], 0);
    if virgin || s - seqHigh >= WINDOW_BITS {
      // Nothing seen so far stays within reach: only the new high is set.
      var nw := new bv8[WINDOW_BYTES](_ => 0);
      assert Bits(nw[..]) == Blank();
      assert !virgin ==> Shifted(Bits(window), s - seqHigh) == Blank();
      SetBit(nw, 0);
      return s, nw[..], true;
    } else if s > seqHigh {
      var shifted := ShiftRight(w, s - seqHigh);
      SetBit(shifted, 0);
      return s, shifted[..], true;
    } else if s == seqHigh {
      return 0, [], false;
    } else {
      var diff := seqHigh - s;
      if diff >= WINDOW_BITS || GetBit(w[..], diff) {
        return 0, [], false;
      }
      SetBit(w, diff);
      return seqHigh, w[..], true;
    }
  }

  // ---------------------------------------------------------------------------
  // The window refines the set of accepted numbers
  // ---------------------------------------------------------------------------

  ghost predicate Represents(row: Row, seen: set<uint64>) {
    && |row.bits| == WINDOW_BITS
    && (seen == {} ==> row == ZeroRow())
    && (seen != {} ==> row.high in seen && forall x | x in seen :: x <= row.high)
    && (forall i | 0 <= i < WINDOW_BITS :: row.bits[i] <==> i <= row.high && row.high - i in seen)
  }

  /** What the window is meant to decide, over the unbounded set. */
  ghost predicate Fresh(seen: set<uint64>, s: uint64) {
    && s !in seen
    && forall x | x in seen :: x < s + WINDOW_BITS
  }

  lemma AdvanceRefinesSet(row: Row, seen: set<uint64>, s: uint64)
    requires Represents(row, seen)
    ensures Advance(row, s).Some? <==> Fresh(seen, s)
    ensures Advance(row, s).Some? ==> Represents(Advance(row, s).value, seen + {s})
  {
  }

  // ---------------------------------------------------------------------------
  // Whole runs from the empty row
  // ---------------------------------------------------------------------------

  predicate Accepts(row: Row, s: uint64) {
    Advance(row, s).Some?
  }

  function Next(row: Row, s: uint64): Row {
    match Advance(row, s)
    case Some(row') => row'
    case None => row
  }

  /** rows[i] is the stored row just before the number seqs[i] is presented. */
  ghost predicate IsRun(rows: seq<Row>, seqs: seq<uint64>) {
    && |rows| == |seqs| + 1
    && rows[0] == ZeroRow()
    && forall i | 0 <= i < |seqs| :: rows[i + 1] == Next(rows[i], seqs[i])
  }

  /** The numbers accepted among the first n presented. */
  ghost function Seen(rows: seq<Row>, seqs: seq<uint64>, n: nat): set<uint64>
    requires n <= |seqs| < |rows|
  {
    set i | 0 <= i < n && Accepts(rows[i], seqs[i]) :: seqs[i]
  }

  /** After any run the bytes hold exactly the accepted numbers within reach of the highest one. */
  lemma {:induction false} WindowHoldsSeen(rows: seq<Row>, seqs: seq<uint64>, n: nat)
    requires IsRun(rows, seqs) && n <= |seqs|
    ensures Represents(rows[n], Seen(rows, seqs, n))
  {
    if n > 0 {
      var m := n - 1;
      WindowHoldsSeen(rows, seqs, m);
      AdvanceRefinesSet(rows[m], Seen(rows, seqs, m), seqs[m]);
      assert rows[m + 1] == Next(rows[m], seqs[m]);
      assert Seen(rows, seqs, n) == Seen(rows, seqs, m) + if Accepts(rows[m], seqs[m]) then {seqs[m]} else {};
    }
  }

  /** A number is refused exactly when it was accepted before or lies 256 or more below the highest. */
  lemma RefusedExactlyWhenSeenOrStale(rows: seq<Row>, seqs: seq<uint64>, i: nat)
    requires IsRun(rows, seqs) && i < |seqs|
    ensures !Accepts(rows[i], seqs[i]) <==>
            exists j :: 0 <= j < i && Accepts(rows[j], seqs[j]) && (seqs[j] == seqs[i] || seqs[j] >= seqs[i] + WINDOW_BITS)
  {
    WindowHoldsSeen(rows, seqs, i);
    AdvanceRefinesSet(rows[i], Seen(rows, seqs, i), seqs[i]);
    if x :| x in Seen(rows, seqs, i) && (x == seqs[i] || x >= seqs[i] + WINDOW_BITS) {
    }
    forall j | 0 <= j < i && Accepts(rows[j], seqs[j]) ensures seqs[j] in Seen(rows, seqs, i) {
    }
  }

  lemma NeverAcceptedTwice(rows: seq<Row>, seqs: seq<uint64>, i: nat, j: nat)
    requires IsRun(rows, seqs) && i < j < |seqs|
    requires Accepts(rows[i], seqs[i]) && Accepts(rows[j], seqs[j])
    ensures seqs[i] != seqs[j]
  {
    RefusedExactlyWhenSeenOrStale(rows, seqs, j);
  }
}
