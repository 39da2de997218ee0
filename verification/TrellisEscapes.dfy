/**
 Why the trellis needs runs without escapes: for every number of bands that lets a run reach the escape value there
 is an input on which the selected codebooks are not the cheapest. Before the escape the trellis keeps the longer run
 of a column because it is cheaper by one bit, and then has to pay for the escape.
 */
module TrellisEscapes {
  import opened SectionData
  import opened Trellis
  import opened TrellisProofs
  import opened Wrappers
  import Slices

  const LATE: nat := 10
  const EARLY: nat := 11

  function MaxBands(short: bool): nat {
    if short then 15 else 51
  }

  /** Zero bands in front of the last run_esc bands. */
  function Lead(short: bool, n: nat): nat
    requires RunEsc(short) <= n
  {
    n - RunEsc(short)
  }

  /** Column LATE is dear by all but one bit of a header at first, column EARLY in the last two bands. */
  function Price(short: bool, j: nat, cb: nat): (r: real)
    ensures r >= 0.0
  {
    if cb == LATE && j == 0 then RunBits(short) as real + 3.0
    else if cb == EARLY && j + 2 >= RunEsc(short) then 20.0
    else 0.0
  }

  function Prices(short: bool, m: nat, k: nat): (r: seq<real>)
    ensures |r| == CB_TOT_ALL && forall cb :: 0 <= cb < |r| ==> r[cb] >= 0.0
  {
    seq(CB_TOT_ALL, cb requires 0 <= cb < CB_TOT_ALL => if k < m then 0.0 else Price(short, k - m, cb))
  }

  function Gadget(short: bool, n: nat): (inp: Input)
    requires RunEsc(short) <= n <= MaxBands(short)
    ensures ValidInput(inp) && |inp.zeroes| == n && inp.short == short
  {
    var m := Lead(short, n);
    Input(short, seq(n, k => k < m), seq(n, k => if k < m then 0 else LATE),
          seq(n, k requires 0 <= k < n => Prices(short, m, k)))
  }

  lemma GadgetBand(short: bool, n: nat, k: nat, cb: nat)
    requires RunEsc(short) <= n <= MaxBands(short) && k < n && cb < CB_TOT_ALL
    ensures var inp := Gadget(short, n); var m := Lead(short, n);
      && (Admissible(inp, k, cb) <==> if k < m then cb == 0 else cb == LATE || cb == EARLY)
      && BandBits(inp, k, cb) == if k < m then 0.0 else Price(short, k - m, cb)
  {
    assert OutMap(12) == 13 && OutMap(13) == 14 && OutMap(14) == 15;
  }

  /** Lengthening a run costs something only where it reaches the escape value. */
  lemma CrossingAtEscape(inp: Input, run: nat)
    requires run < RunEsc(inp.short)
    ensures Crossing(inp, run) == if run + 1 == RunEsc(inp.short) then RunBits(inp.short) as real else 0.0
  {
  }

  /** The bands in front, then EARLY, then LATE for the last two bands. */
  function Better(short: bool, n: nat, k: nat): (b: seq<nat>)
    requires RunEsc(short) <= n
    ensures |b| == k
  {
    seq(k, i requires 0 <= i < k => if i < Lead(short, n) then 0 else if i + 2 < n then EARLY else LATE)
  }

  lemma BetterStep(short: bool, n: nat, k: nat, k1: nat)
    requires RunEsc(short) <= n <= MaxBands(short) && k < n && k1 == k + 1
    ensures Better(short, n, k1)
            == Better(short, n, k) + [if k < Lead(short, n) then 0 else if k1 + 1 < n then EARLY else LATE]
  {
  }

  /** How long the run at the end of the first k columns of the better choice is. */
  function BetterRun(short: bool, n: nat, k: nat): nat
    requires RunEsc(short) <= n
  {
    if k <= Lead(short, n) then k else if k + 2 <= n then k - Lead(short, n) else k + 2 - n
  }

  /** The bands in front only know column 0. */
  lemma LeadOthers(short: bool, n: nat, inp: Input, j: nat, k: nat)
    requires RunEsc(short) <= n <= MaxBands(short) && inp == Gadget(short, n) && k == j + 1 <= Lead(short, n)
    ensures var l := LayerAt(inp, k);
      l.minBits == Some(l.points[0].cost) && l.points[LATE] == l.points[EARLY] == Point(-1, SENTINEL, 0)
  {
    GadgetBand(short, n, j, LATE);
    GadgetBand(short, n, j, EARLY);
    LayerMin(inp, k);
    GadgetBand(short, n, j, LayerAt(inp, k).minCb);
    BarredPoint(inp, k, LATE);
    BarredPoint(inp, k, EARLY);
  }

  lemma {:induction false} LeadLayer(short: bool, n: nat, inp: Input, k: nat)
    requires RunEsc(short) <= n <= MaxBands(short) && inp == Gadget(short, n) && 1 <= k <= Lead(short, n)
    ensures var p := LayerAt(inp, k).points[0];
      p.run == k && p.cost <= 9.0 + 5.0 * k as real
      && p.cost == if k == 1 then Header(inp)
                   else LayerAt(inp, k - 1).points[0].cost + Crossing(inp, k - 1)
  {
    var j := k - 1;
    var before := LayerAt(inp, j).points[0];
    GadgetBand(short, n, j, 0);
    NextOf(inp, j, k, 0, before, 0.0, Crossing(inp, before.run));
    if j > 0 {
      LeadLayer(short, n, inp, j);
      LeadOthers(short, n, inp, j - 1, j);
    }
  }

  /** What one more column costs and how long the last run is then. */
  lemma Extended(inp: Input, a: seq<nat>, cb: nat, next: seq<nat>, bits: real)
    requires ValidInput(inp) && Assignment(inp, a) && |a| < |inp.zeroes| && Admissible(inp, |a|, cb)
    requires next == a + [cb] && bits == BandBits(inp, |a|, cb)
    ensures Assignment(inp, next)
    ensures PathCost(inp, next) == PathCost(inp, a) + bits
            + if a != [] && a[|a| - 1] == cb then Crossing(inp, LastRun(a)) else Header(inp)
    ensures LastRun(next) == if a != [] && a[|a| - 1] == cb then LastRun(a) + 1 else 1
  {
    ExtendCost(inp, a, cb);
  }

  lemma {:induction false} LeadPath(short: bool, n: nat, inp: Input, k: nat, b: seq<nat>)
    requires RunEsc(short) <= n <= MaxBands(short) && inp == Gadget(short, n) && 1 <= k <= Lead(short, n)
    requires b == Better(short, n, k)
    ensures Assignment(inp, b) && LastRun(b) == k && PathCost(inp, b) == LayerAt(inp, k).points[0].cost
    decreases k
  {
    var j := k - 1;
    var a := Better(short, n, j);
    LeadLayer(short, n, inp, k);
    GadgetBand(short, n, j, 0);
    BetterStep(short, n, j, k);
    if j > 0 {
      LeadPath(short, n, inp, j, a);
    }
    Extended(inp, a, 0, b, 0.0);
  }

  // ----- the last bands

  /** Cost up to the first of the last bands, if it starts a section at no cost of its own. */
  ghost function Start(inp: Input, m: nat): real
    requires ValidInput(inp) && m <= |inp.zeroes|
  {
    if m == 0 then Header(inp) else LayerAt(inp, m).points[0].cost + Header(inp)
  }

  /** One bit less than a header. */
  function Handicap(short: bool): real {
    RunBits(short) as real + 3.0
  }

  lemma StartSmall(short: bool, n: nat, inp: Input, m: nat)
    requires RunEsc(short) <= n <= MaxBands(short) && inp == Gadget(short, n) && m == Lead(short, n)
    ensures 0.0 <= Start(inp, m) <= 300.0
  {
    if m > 0 {
      LeadLayer(short, n, inp, m);
      LeadPath(short, n, inp, m, Better(short, n, m));
      CostNotNegative(inp, Better(short, n, m));
    }
  }

  lemma {:induction false} CostNotNegative(inp: Input, a: seq<nat>)
    requires ValidInput(inp) && Assignment(inp, a)
    ensures PathCost(inp, a) >= 0.0
  {
    BandsNotNegative(inp, a);
  }

  lemma {:induction false} BandsNotNegative(inp: Input, a: seq<nat>)
    requires ValidInput(inp) && Assignment(inp, a)
    ensures BandTotal(inp, a) >= 0.0
  {
    if a != [] {
      var k := |a| - 1;
      AssignmentPrefix(inp, a, k);
      BandsNotNegative(inp, a[..k]);
      assert Admissible(inp, k, a[k]);
    }
  }

  /** After one of the last bands the minimum is over the two columns. */
  lemma MinOfTwo(short: bool, n: nat, inp: Input, j: nat, k: nat)
    requires RunEsc(short) <= n <= MaxBands(short) && inp == Gadget(short, n) && Lead(short, n) <= j && k == j + 1 <= n
    ensures var l := LayerAt(inp, k);
      && l.minBits.Some? && (l.minBits.value == l.points[LATE].cost || l.minBits.value == l.points[EARLY].cost)
      && l.minBits.value <= l.points[LATE].cost && l.minBits.value <= l.points[EARLY].cost
  {
    LayerMin(inp, k);
    GadgetBand(short, n, j, LATE);
    GadgetBand(short, n, j, EARLY);
    GadgetBand(short, n, j, LayerAt(inp, k).minCb);
  }

  /** Both columns after i of the last bands, before a run can escape. */
  ghost predicate Standing(inp: Input, k: nat, i: nat, start: real, extra: real)
    requires ValidInput(inp) && k <= |inp.zeroes|
  {
    var l := LayerAt(inp, k);
    && l.points[LATE].run == i && l.points[LATE].cost == start + Handicap(inp.short)
    && l.points[EARLY].run == i && l.points[EARLY].cost == start + extra
  }

  lemma FirstBand(short: bool, n: nat, inp: Input, m: nat, k: nat)
    requires RunEsc(short) <= n <= MaxBands(short) && inp == Gadget(short, n) && m == Lead(short, n) && k == m + 1
    ensures Standing(inp, k, 1, Start(inp, m), 0.0)
  {
    var l := LayerAt(inp, m);
    GadgetBand(short, n, m, LATE);
    GadgetBand(short, n, m, EARLY);
    StartSmall(short, n, inp, m);
    if m > 0 {
      LeadOthers(short, n, inp, m - 1, m);
    }
    NextOf(inp, m, k, LATE, l.points[LATE], Handicap(short), Crossing(inp, l.points[LATE].run));
    NextOf(inp, m, k, EARLY, l.points[EARLY], 0.0, Crossing(inp, l.points[EARLY].run));
  }

  /** Before the last two bands nothing changes but the lengths of the runs. */
  lemma {:induction false} MiddleBands(short: bool, n: nat, inp: Input, m: nat, k: nat, i: nat)
    requires RunEsc(short) <= n <= MaxBands(short) && inp == Gadget(short, n) && m == Lead(short, n)
    requires k == m + i && 1 <= i && i + 2 <= RunEsc(short)
    ensures Standing(inp, k, i, Start(inp, m), 0.0)
    decreases i
  {
    if i == 1 {
      FirstBand(short, n, inp, m, k);
    } else {
      var j := k - 1;
      MiddleBands(short, n, inp, m, j, i - 1);
      OneMoreBand(short, n, inp, m, j, k, i - 1, 0.0, 0.0);
    }
  }

  /** Both columns stay, as starting anew is one bit dearer for LATE and a header dearer for EARLY. */
  lemma OneMoreBand(short: bool, n: nat, inp: Input, m: nat, j: nat, k: nat, i: nat, extra: real, price: real)
    requires RunEsc(short) <= n <= MaxBands(short) && inp == Gadget(short, n) && m == Lead(short, n)
    requires j == m + i && k == j + 1 <= n && 1 <= i && i + 1 < RunEsc(short)
    requires Standing(inp, j, i, Start(inp, m), extra) && extra == 0.0 && price == Price(short, i, EARLY)
    ensures Standing(inp, k, i + 1, Start(inp, m), price)
  {
    var l := LayerAt(inp, j);
    MinOfTwo(short, n, inp, j - 1, j);
    GadgetBand(short, n, j, LATE);
    GadgetBand(short, n, j, EARLY);
    CrossingAtEscape(inp, i);
    NextOf(inp, j, k, LATE, l.points[LATE], 0.0, 0.0);
    NextOf(inp, j, k, EARLY, l.points[EARLY], price, 0.0);
  }

  /** At the end every column costs at least what LATE does after paying for its escape. */
  lemma LastBand(short: bool, n: nat, inp: Input, m: nat, cb: nat)
    requires RunEsc(short) <= n <= MaxBands(short) && inp == Gadget(short, n) && m == Lead(short, n) && cb < CB_TOT_ALL
    ensures LayerAt(inp, n).points[cb].cost >= Start(inp, m) + Handicap(short) + RunBits(short) as real
  {
    var k, i := n - 1, RunEsc(short) - 1;
    MiddleBands(short, n, inp, m, k - 1, i - 1);
    OneMoreBand(short, n, inp, m, k - 1, k, i - 1, 0.0, 20.0);
    var l := LayerAt(inp, k);
    MinOfTwo(short, n, inp, k - 1, k);
    GadgetBand(short, n, k, cb);
    CrossingAtEscape(inp, i);
    StartSmall(short, n, inp, m);
    if cb == LATE || cb == EARLY {
      NextOf(inp, k, n, cb, l.points[cb], Price(short, i, cb), RunBits(short) as real);
    } else {
      BarredPoint(inp, n, cb);
    }
  }

  // ----- the better choice

  /** From the first of the last bands on: EARLY at the price of its section, then LATE at the price of another. */
  lemma {:induction false} BetterPath(short: bool, n: nat, inp: Input, m: nat, k: nat, b: seq<nat>)
    requires RunEsc(short) <= n <= MaxBands(short) && inp == Gadget(short, n) && m == Lead(short, n) && m < k <= n
    requires b == Better(short, n, k)
    ensures Assignment(inp, b) && LastRun(b) == BetterRun(short, n, k)
    ensures PathCost(inp, b) == Start(inp, m) + if k + 2 <= n then 0.0 else Header(inp)
    decreases k
  {
    var j := k - 1;
    var a := Better(short, n, j);
    var cb := if k + 1 < n then EARLY else LATE;
    BetterStep(short, n, j, k);
    GadgetBand(short, n, j, cb);
    if j > m {
      BetterPath(short, n, inp, m, j, a);
    } else if m > 0 {
      LeadPath(short, n, inp, m, a);
    }
    if BetterRun(short, n, j) < RunEsc(short) {
      CrossingAtEscape(inp, BetterRun(short, n, j));
    }
    Extended(inp, a, cb, b, 0.0);
  }

  /** No run of the better choice has the length at which the price table is wrong. */
  lemma {:induction false} NoneUnderpriced(short: bool, n: nat, k: nat, b: seq<nat>)
    requires RunEsc(short) <= n <= MaxBands(short) && k <= n && b == Better(short, n, k)
    ensures Underpriced(short, Sections(b)) == 0
    ensures k > 0 ==> LastRun(b) == BetterRun(short, n, k)
    decreases k
  {
    if k > 0 {
      var j := k - 1;
      var a := Better(short, n, j);
      var cb := if j < Lead(short, n) then 0 else if k + 1 < n then EARLY else LATE;
      BetterStep(short, n, j, k);
      NoneUnderpriced(short, n, j, a);
      RunStep(short, n, j, k, a, cb);
      if a != [] && a[|a| - 1] == cb {
        LongerSection(short, a, cb, b);
      } else {
        NewSection(short, a, cb, b);
      }
    }
  }

  lemma RunStep(short: bool, n: nat, j: nat, k: nat, a: seq<nat>, cb: nat)
    requires RunEsc(short) <= n <= MaxBands(short) && j + 1 == k <= n && a == Better(short, n, j)
    requires cb == if j < Lead(short, n) then 0 else if k + 1 < n then EARLY else LATE
    ensures BetterRun(short, n, k) == if a != [] && a[|a| - 1] == cb then BetterRun(short, n, j) + 1 else 1
    ensures !short || BetterRun(short, n, k) != 14
  {
  }

  /** Appending a section. */
  lemma AppendUnderpriced(short: bool, secs: seq<Section>, s: Section)
    ensures Underpriced(short, secs + [s]) == Underpriced(short, secs) + if short && s.run == 14 then 1 else 0
  {
    Slices.Front(secs, [s]);
  }

  lemma NewSection(short: bool, a: seq<nat>, cb: nat, b: seq<nat>)
    requires b == a + [cb] && !(a != [] && a[|a| - 1] == cb)
    ensures LastRun(b) == 1 && Underpriced(short, Sections(b)) == Underpriced(short, Sections(a))
  {
    SectionsOpen(a, cb);
    AppendUnderpriced(short, Sections(a), Section(cb, 1));
  }

  lemma LongerSection(short: bool, a: seq<nat>, cb: nat, b: seq<nat>)
    requires b == a + [cb] && a != [] && a[|a| - 1] == cb
    ensures LastRun(b) == LastRun(a) + 1
    ensures (!short || LastRun(b) != 14) ==> Underpriced(short, Sections(b)) <= Underpriced(short, Sections(a))
  {
    var head, run, more := SectionsLonger(a, cb);
    AppendUnderpriced(short, head, Section(cb, run));
    AppendUnderpriced(short, head, Section(cb, more));
  }

  lemma {:induction false} BetterBands(short: bool, n: nat, inp: Input, k: nat, b: seq<nat>)
    requires RunEsc(short) <= n <= MaxBands(short) && inp == Gadget(short, n) && k <= n && b == Better(short, n, k)
    ensures Assignment(inp, b) && BandTotal(inp, b) == 0.0
    decreases k
  {
    if k > 0 {
      var j := k - 1;
      BetterBands(short, n, inp, j, Better(short, n, j));
      GadgetBand(short, n, j, b[j]);
      assert b[..j] == Better(short, n, j);
    }
  }

  lemma {:induction false} FewHeaders(inp: Input, n: nat)
    ensures Headers(inp, n) <= 9.0 * n as real
  {
    if n > 0 {
      FewHeaders(inp, n - 1);
    }
  }

  /**
   As soon as the bands suffice for a run to escape, the guarantee is gone: some input with that many bands, well below
   the sentinel, has an admissible choice strictly cheaper in the stream than the one recovered from any cheapest column.
   */
  lemma NotOptimalWithEscapes(short: bool, n: nat) returns (inp: Input, b: seq<nat>)
    requires RunEsc(short) <= n <= MaxBands(short)
    ensures ValidInput(inp) && inp.short == short && |inp.zeroes| == n == |b| && Room(inp) && Assignment(inp, b)
    ensures forall idx: nat :: idx < CB_TOT_ALL && Cheapest(inp, idx) ==>
      && Assignment(inp, Recovered(inp, n, idx))
      && StreamCost(inp, b) < StreamCost(inp, Recovered(inp, n, idx))
  {
    inp, b := Gadget(short, n), Better(short, n, n);
    var m := Lead(short, n);
    BetterBands(short, n, inp, n, b);
    FewHeaders(inp, n);
    RoomSuffices(inp, b);
    BetterPath(short, n, inp, m, n, b);
    NoneUnderpriced(short, n, n, b);
    ChargeAgainstStream(inp, b);
    forall idx: nat | idx < CB_TOT_ALL && Cheapest(inp, idx)
      ensures Assignment(inp, Recovered(inp, n, idx))
      ensures StreamCost(inp, b) < StreamCost(inp, Recovered(inp, n, idx))
    {
      CheapestAdmissible(inp, idx);
      RecoveredCost(inp, n, idx);
      ChargeAgainstStream(inp, Recovered(inp, n, idx));
      LastBand(short, n, inp, m, idx);
    }
  }
}
