/** Logical offsets into a ring of cap cells: offset o lives in cell o % cap. */
module Laps {
  import Bytes

  /** Cells left before the physical end, counted from offset o. */
  function Room(cap: nat, o: nat): (r: nat)
    requires cap > 0
    ensures 1 <= r <= cap
  {
    cap - o % cap
  }

  /** The cell of offset o. */
  function CellOf(cap: nat, o: nat): (c: nat)
    requires cap > 0
    ensures c < cap
  {
    o % cap
  }

  /** First offset of the lap after the one that holds o. */
  function NextLap(cap: nat, o: nat): (r: nat)
    requires cap > 0
  {
    o + Room(cap, o)
  }

  /** The formula the source uses for the start of the next lap. */
  lemma NextLapFormula(cap: nat, o: nat)
    requires cap > 0
    ensures NextLap(cap, o) == (o / cap + 1) * cap
    ensures NextLap(cap, o) % cap == 0
  {
    Bytes.ModUnique((o / cap + 1) * cap, cap, o / cap + 1, 0);
  }

  /** Within the first lap after o, cells follow on; in the second they restart at 0. */
  lemma Cell(cap: nat, o: nat, i: nat)
    requires cap > 0 && i < Room(cap, o) + cap
    ensures (o + i) % cap == if i < Room(cap, o) then o % cap + i else i - Room(cap, o)
  {
    var q, p := o / cap, o % cap;
    if i < Room(cap, o) {
      Bytes.ModUnique(o + i, cap, q, p + i);
    } else {
      Bytes.Distribute(cap, q + 1, q);
      Bytes.ModUnique(o + i, cap, q + 1, i - Room(cap, o));
    }
  }

  /** The next lap after an offset within one lap below a boundary is that boundary. */
  lemma LapOf(cap: nat, lap: nat, o: nat)
    requires cap > 0 && lap % cap == 0 && o < lap <= o + cap
    ensures NextLap(cap, o) == lap
  {
    var k := lap / cap;
    Bytes.Distribute(cap, k, k - 1);
    Bytes.ModUnique(o, cap, k - 1, o - (lap - cap));
  }

  /** Offsets less than a lap apart never share a cell. */
  lemma CellsDiffer(cap: nat, a: nat, b: nat)
    requires cap > 0 && a < b < a + cap
    ensures a % cap != b % cap
  {
    Cell(cap, a, b - a);
  }
}
