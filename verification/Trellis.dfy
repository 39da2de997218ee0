/**
 The dynamic program of the AAC codebook trellis: one column per codebook, one layer per band, the
 running minimum that stands for "start a new section here", and the sentinel cost for columns a band
 may not use. Costs are reals; the quantiser's bit counts are a given nonnegative table.
 */
module Trellis {
  import opened Wrappers
  import opened SectionData

  datatype Input = Input(short: bool, zeroes: seq<bool>, bandType: seq<nat>, bits: seq<seq<real>>)

  const SENTINEL: real := 61450.0

  ghost predicate ValidInput(inp: Input) {
    && |inp.zeroes| == |inp.bandType| == |inp.bits|
    && |inp.zeroes| <= (if inp.short then 15 else 51)
    && (forall swb :: 0 <= swb < |inp.bits| ==> |inp.bits[swb]| == CB_TOT_ALL)
    && (forall swb :: 0 <= swb < |inp.bits| ==> inp.bandType[swb] < 16)
    && (forall swb, cb :: 0 <= swb < |inp.bits| && 0 <= cb < CB_TOT_ALL ==> inp.bits[swb][cb] >= 0.0)
  }

  /** Columns band swb may use: only 0 for a zero band, else from the current type's column up. */
  predicate Admissible(inp: Input, swb: nat, cb: nat)
    requires swb < |inp.zeroes| == |inp.bandType|
  {
    && cb < CB_TOT_ALL
    && (if inp.zeroes[swb] then cb == 0
        else InMap(inp.bandType[swb]) <= cb && (cb >= 12 ==> inp.bandType[swb] == OutMap(cb)))
  }

  /** In terms of codebooks: a coded band keeps its own or a later one, and one of the last three only if it is its own. */
  lemma AdmissibleCodebooks(inp: Input, swb: nat, cb: nat)
    requires ValidInput(inp) && swb < |inp.zeroes| && cb < CB_TOT_ALL
    ensures Admissible(inp, swb, cb) <==>
      if inp.zeroes[swb] then OutMap(cb) == 0
      else (inp.bandType[swb] == 12 || inp.bandType[swb] <= OutMap(cb)) && (OutMap(cb) >= 13 ==> OutMap(cb) == inp.bandType[swb])
  {
  }

  /** run_value_bits as tabulated: 16 entries for short windows, 64 for long ones. */
  function RunValueBits(short: bool, run: nat): nat {
    if short then (if run < 7 then 3 else if run < 15 then 6 else 9)
    else (if run < 31 then 5 else if run < 63 then 10 else 15)
  }

  function Header(inp: Input): real {
    RunBits(inp.short) as real + 4.0
  }

  function BandBits(inp: Input, swb: nat, cb: nat): real
    requires swb < |inp.zeroes| == |inp.bits| && cb < |inp.bits[swb]|
  {
    if inp.zeroes[swb] then 0.0 else inp.bits[swb][cb]
  }

  /** Extra bits for lengthening a run by one band. */
  function Crossing(inp: Input, run: nat): real {
    if RunValueBits(inp.short, run) != RunValueBits(inp.short, run + 1) then RunBits(inp.short) as real else 0.0
  }

  datatype Point = Point(prevIdx: int, cost: real, run: nat)

  /** minBits is None for INFINITY. */
  datatype Layer = Layer(points: seq<Point>, minBits: Option<real>, minCb: nat)

  function Stay(inp: Input, swb: nat, l: Layer, cb: nat): real
    requires swb < |inp.zeroes| == |inp.bits| && cb < |inp.bits[swb]| && cb < |l.points|
  {
    l.points[cb].cost + BandBits(inp, swb, cb) + Crossing(inp, l.points[cb].run)
  }

  function Get(inp: Input, swb: nat, minBits: real, cb: nat): real
    requires swb < |inp.zeroes| == |inp.bits| && cb < |inp.bits[swb]|
  {
    minBits + BandBits(inp, swb, cb) + Header(inp)
  }

  function NextPoint(inp: Input, swb: nat, l: Layer, cb: nat): Point
    requires swb < |inp.zeroes| == |inp.bandType| == |inp.bits|
    requires cb < |inp.bits[swb]| && cb < |l.points|
  {
    if !Admissible(inp, swb, cb) then Point(-1, SENTINEL, 0)
    else if l.minBits.Some? && Get(inp, swb, l.minBits.value, cb) < Stay(inp, swb, l, cb)
    then Point(l.minCb, Get(inp, swb, l.minBits.value, cb), 1)
    else Point(cb, Stay(inp, swb, l, cb), l.points[cb].run + 1)
  }

  /** A point takes the cheaper way, and stays in its section when both cost the same. */
  lemma CheaperWay(inp: Input, swb: nat, l: Layer, cb: nat)
    requires ValidInput(inp) && swb < |inp.zeroes| && cb < CB_TOT_ALL == |l.points| && Admissible(inp, swb, cb)
    ensures var p, stay := NextPoint(inp, swb, l, cb), Stay(inp, swb, l, cb);
      && p.cost <= stay && (l.minBits.Some? ==> p.cost <= Get(inp, swb, l.minBits.value, cb))
      && if p.cost == stay then p.prevIdx == cb && p.run == l.points[cb].run + 1
         else l.minBits.Some? && p == Point(l.minCb, Get(inp, swb, l.minBits.value, cb), 1)
  {
  }

  /** The first cheapest admissible column below n. */
  function RunningMin(inp: Input, swb: nat, points: seq<Point>, n: nat): (r: (Option<real>, nat))
    requires swb < |inp.zeroes| == |inp.bandType| && n <= |points|
    ensures r.0.None? <==> forall cb :: 0 <= cb < n ==> !Admissible(inp, swb, cb)
    ensures r.0.Some? ==> r.1 < n && Admissible(inp, swb, r.1) && r.0.value == points[r.1].cost
    ensures r.0.Some? ==> forall cb :: 0 <= cb < n && Admissible(inp, swb, cb) ==> r.0.value <= points[cb].cost
  {
    if n == 0 then (None, 0)
    else
      var r := RunningMin(inp, swb, points, n - 1);
      if Admissible(inp, swb, n - 1) && (r.0.None? || points[n - 1].cost < r.0.value)
      then (Some(points[n - 1].cost), n - 1)
      else r
  }

  /** Among equally cheap columns it is the first. */
  lemma {:induction false} RunningMinFirst(inp: Input, swb: nat, points: seq<Point>, n: nat, cb: nat)
    requires swb < |inp.zeroes| == |inp.bandType| && n <= |points| && RunningMin(inp, swb, points, n).0.Some?
    requires cb < RunningMin(inp, swb, points, n).1 && Admissible(inp, swb, cb)
    ensures points[cb].cost > RunningMin(inp, swb, points, n).0.value
  {
    var k := n - 1;
    if RunningMin(inp, swb, points, k) == RunningMin(inp, swb, points, n) {
      RunningMinFirst(inp, swb, points, k, cb);
    }
  }

  function FirstLayer(inp: Input): (l: Layer)
    ensures |l.points| == CB_TOT_ALL
  {
    Layer(seq(CB_TOT_ALL, _ => Point(-1, Header(inp), 0)), None, 0)
  }

  function NextLayer(inp: Input, swb: nat, l: Layer): (r: Layer)
    requires swb < |inp.zeroes| == |inp.bandType| == |inp.bits|
    requires |inp.bits[swb]| == CB_TOT_ALL == |l.points|
    ensures |r.points| == CB_TOT_ALL
    ensures forall cb :: 0 <= cb < CB_TOT_ALL ==> r.points[cb] == NextPoint(inp, swb, l, cb)
  {
    var points := seq(CB_TOT_ALL, cb requires 0 <= cb < CB_TOT_ALL => NextPoint(inp, swb, l, cb));
    var m := RunningMin(inp, swb, points, CB_TOT_ALL);
    Layer(points, m.0, m.1)
  }

  /** The layer after k bands. */
  ghost function LayerAt(inp: Input, k: nat): (l: Layer)
    requires ValidInput(inp) && k <= |inp.zeroes|
    ensures |l.points| == CB_TOT_ALL
  {
    if k == 0 then FirstLayer(inp) else NextLayer(inp, k - 1, LayerAt(inp, k - 1))
  }

  /** The recurrence, point by point. */
  lemma LayerNext(inp: Input, j: nat, k: nat, cb: nat)
    requires ValidInput(inp) && k == j + 1 <= |inp.zeroes| && cb < CB_TOT_ALL
    ensures LayerAt(inp, k).points[cb] == NextPoint(inp, j, LayerAt(inp, j), cb)
  {
  }

  /** Every band has an admissible column, and the minimum after a band is the minimum over those. */
  lemma LayerMin(inp: Input, k: nat)
    requires ValidInput(inp) && 1 <= k <= |inp.zeroes|
    ensures var l := LayerAt(inp, k);
      && l.minBits.Some? && Admissible(inp, k - 1, l.minCb) && l.minBits.value == l.points[l.minCb].cost
      && forall cb: nat :: Admissible(inp, k - 1, cb) ==> l.minBits.value <= l.points[cb].cost
  {
    var first := if inp.zeroes[k - 1] then 0 else InMap(inp.bandType[k - 1]);
    assert Admissible(inp, k - 1, first);
  }

  // ----- assignments of columns to bands and what they cost

  /** One admissible column per band. */
  ghost predicate Assignment(inp: Input, a: seq<nat>)
    requires ValidInput(inp)
  {
    |a| <= |inp.zeroes| && forall i :: 0 <= i < |a| ==> Admissible(inp, i, a[i])
  }

  /** The maximal runs of equal columns. */
  function Sections(a: seq<nat>): (secs: seq<Section>)
    ensures a == [] <==> secs == []
    ensures a != [] ==> secs[|secs| - 1].cb == a[|a| - 1] && secs[|secs| - 1].run > 0
  {
    if a == [] then []
    else
      var n := |a| - 1;
      var secs := Sections(a[..n]);
      if n > 0 && a[n - 1] == a[n]
      then secs[..|secs| - 1] + [Section(a[n], secs[|secs| - 1].run + 1)]
      else secs + [Section(a[n], 1)]
  }

  function LastRun(a: seq<nat>): nat {
    var secs := Sections(a);
    if secs == [] then 0 else secs[|secs| - 1].run
  }

  ghost function BandTotal(inp: Input, a: seq<nat>): real
    requires ValidInput(inp) && Assignment(inp, a)
  {
    if a == [] then 0.0
    else
      var n := |a| - 1;
      BandTotal(inp, a[..n]) + if inp.zeroes[n] then 0.0 else inp.bits[n][a[n]]
  }

  /** Section headers as the run_value_bits table prices them. */
  function TableTotal(short: bool, secs: seq<Section>): nat {
    if secs == [] then 0
    else TableTotal(short, secs[..|secs| - 1]) + 4 + RunValueBits(short, secs[|secs| - 1].run)
  }

  /** Section headers as the writer emits them. */
  function EmittedTotal(short: bool, secs: seq<Section>): nat {
    if secs == [] then 0
    else EmittedTotal(short, secs[..|secs| - 1]) + 4 + RunLength(short, secs[|secs| - 1].run)
  }

  /** What the trellis charges for an assignment. */
  ghost function PathCost(inp: Input, a: seq<nat>): real
    requires ValidInput(inp) && Assignment(inp, a)
  {
    BandTotal(inp, a) + TableTotal(inp.short, Sections(a)) as real
  }

  /** What an assignment costs in the bit stream. */
  ghost function StreamCost(inp: Input, a: seq<nat>): real
    requires ValidInput(inp) && Assignment(inp, a)
  {
    BandTotal(inp, a) + |SectionsCode(inp.short, Sections(a))| as real
  }
}
