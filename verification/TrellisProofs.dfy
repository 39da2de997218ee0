/**
 What the trellis recovers: its cost is exactly what it charges, the sections come out maximal and in
 order, and without run escapes no admissible choice of codebooks needs fewer bits.
 */
module TrellisProofs {
  import opened SectionData
  import opened Trellis
  import Slices

  lemma AssignmentPrefix(inp: Input, a: seq<nat>, k: nat)
    requires ValidInput(inp) && Assignment(inp, a) && k <= |a|
    ensures Assignment(inp, a[..k])
  {
  }

  /** One more column opens a section of its own. */
  lemma SectionsOpen(a: seq<nat>, cb: nat)
    requires a == [] || a[|a| - 1] != cb
    ensures Sections(a + [cb]) == Sections(a) + [Section(cb, 1)]
  {
    assert (a + [cb])[..|a|] == a;
  }

  /** One more column like the last lengthens the last section. */
  lemma SectionsLonger(a: seq<nat>, cb: nat) returns (head: seq<Section>, run: nat, more: nat)
    requires a != [] && a[|a| - 1] == cb
    ensures more == run + 1 && Sections(a) == head + [Section(cb, run)] && Sections(a + [cb]) == head + [Section(cb, more)]
  {
    var secs := Sections(a);
    head, run := secs[..|secs| - 1], secs[|secs| - 1].run;
    more := run + 1;
    assert (a + [cb])[..|a|] == a;
  }

  lemma TableAppend(short: bool, head: seq<Section>, s: Section)
    ensures TableTotal(short, head + [s]) == TableTotal(short, head) + 4 + RunValueBits(short, s.run)
  {
    Slices.Front(head, [s]);
  }

  lemma CrossingPrice(inp: Input, run: nat, more: nat)
    requires more == run + 1
    ensures Crossing(inp, run) == (RunValueBits(inp.short, more) - RunValueBits(inp.short, run)) as real
  {
  }

  /** What one more column adds to the price of the sections. */
  lemma ExtendTable(inp: Input, a: seq<nat>, cb: nat)
    ensures TableTotal(inp.short, Sections(a + [cb])) as real == TableTotal(inp.short, Sections(a)) as real +
      (if a != [] && a[|a| - 1] == cb then Crossing(inp, LastRun(a)) else Header(inp))
    ensures LastRun(a + [cb]) == if a != [] && a[|a| - 1] == cb then LastRun(a) + 1 else 1
  {
    if a != [] && a[|a| - 1] == cb {
      var head, run, more := SectionsLonger(a, cb);
      TableAppend(inp.short, head, Section(cb, run));
      TableAppend(inp.short, head, Section(cb, more));
      CrossingPrice(inp, run, more);
    } else {
      SectionsOpen(a, cb);
      TableAppend(inp.short, Sections(a), Section(cb, 1));
    }
  }

  /** What one more band adds to the charge. */
  lemma ExtendCost(inp: Input, a: seq<nat>, cb: nat)
    requires ValidInput(inp) && Assignment(inp, a) && |a| < |inp.zeroes| && Admissible(inp, |a|, cb)
    ensures Assignment(inp, a + [cb])
    ensures PathCost(inp, a + [cb]) == PathCost(inp, a) + BandBits(inp, |a|, cb) +
      (if a != [] && a[|a| - 1] == cb then Crossing(inp, LastRun(a)) else Header(inp))
    ensures LastRun(a + [cb]) == if a != [] && a[|a| - 1] == cb then LastRun(a) + 1 else 1
  {
    Slices.Front(a, [cb]);
    ExtendTable(inp, a, cb);
  }

  lemma {:induction false} RunBound(inp: Input, k: nat, cb: nat)
    requires ValidInput(inp) && k <= |inp.zeroes| && cb < CB_TOT_ALL
    ensures LayerAt(inp, k).points[cb].run <= k
  {
    if k > 0 {
      var j := k - 1;
      RunBound(inp, j, cb);
      LayerNext(inp, j, k, cb);
    }
  }

  // ----- lower bound

  /** No run in this window can reach an escape. */
  predicate NoEscapes(inp: Input) {
    |inp.zeroes| < RunEsc(inp.short)
  }

  /** An admissible point is at most as dear as each way to reach it. */
  lemma PointUpper(inp: Input, j: nat, k: nat, cb: nat)
    requires ValidInput(inp) && k == j + 1 <= |inp.zeroes| && Admissible(inp, j, cb)
    ensures var cost, l := LayerAt(inp, k).points[cb].cost, LayerAt(inp, j);
      && cost <= l.points[cb].cost + BandBits(inp, j, cb) + Crossing(inp, l.points[cb].run)
      && (l.minBits.Some? ==> cost <= l.minBits.value + BandBits(inp, j, cb) + Header(inp))
  {
    LayerNext(inp, j, k, cb);
  }

  lemma NoCrossing(inp: Input, k: nat, cb: nat)
    requires ValidInput(inp) && NoEscapes(inp) && k < |inp.zeroes| && cb < CB_TOT_ALL
    ensures Crossing(inp, LayerAt(inp, k).points[cb].run) == 0.0
  {
    RunBound(inp, k, cb);
  }

  lemma {:induction false} LowerBound(inp: Input, a: seq<nat>)
    requires ValidInput(inp) && NoEscapes(inp) && Assignment(inp, a) && a != []
    ensures LayerAt(inp, |a|).points[a[|a| - 1]].cost <= PathCost(inp, a)
  {
    var k := |a|;
    var n := k - 1;
    var b, cb := a[..n], a[n];
    assert a == b + [cb];
    AssignmentPrefix(inp, a, n);
    if n > 0 {
      LowerBound(inp, b);
      LowerStep(inp, b, cb, n, k);
    } else {
      LowerFirst(inp, b, cb, n, k);
    }
  }

  lemma LowerFirst(inp: Input, b: seq<nat>, cb: nat, n: nat, k: nat)
    requires ValidInput(inp) && NoEscapes(inp) && b == [] && n == 0 && k == n + 1 <= |inp.zeroes| && Admissible(inp, n, cb)
    ensures Assignment(inp, b + [cb]) && LayerAt(inp, k).points[cb].cost <= PathCost(inp, b + [cb])
  {
    ExtendCost(inp, b, cb);
    NoCrossing(inp, n, cb);
    PointUpper(inp, n, k, cb);
    assert PathCost(inp, b) == 0.0;
  }

  lemma LowerStep(inp: Input, b: seq<nat>, cb: nat, n: nat, k: nat)
    requires ValidInput(inp) && NoEscapes(inp) && Assignment(inp, b) && |b| == n > 0 && k == n + 1 <= |inp.zeroes|
    requires Admissible(inp, n, cb) && LayerAt(inp, n).points[b[n - 1]].cost <= PathCost(inp, b)
    ensures Assignment(inp, b + [cb]) && LayerAt(inp, k).points[cb].cost <= PathCost(inp, b + [cb])
  {
    ExtendCost(inp, b, cb);
    NoCrossing(inp, n, cb);
    PointUpper(inp, n, k, cb);
    LayerMin(inp, n);
    assert Admissible(inp, n - 1, b[n - 1]);
  }

  // ----- what backtracking recovers

  /** Band k may use a column that the band before it may not. */
  predicate Opens(inp: Input, k: nat, cb: nat)
    requires 1 <= k < |inp.zeroes| == |inp.bandType|
  {
    Admissible(inp, k, cb) && !Admissible(inp, k - 1, cb)
  }

  predicate BarsSome(inp: Input, swb: nat)
    requires swb < |inp.zeroes| == |inp.bandType|
  {
    exists cb: nat :: cb < CB_TOT_ALL && !Admissible(inp, swb, cb)
  }

  /**
   The sentinel keeps barred points out: where a column opens up, a new section is cheaper than continuing the barred
   point, and after the last band the minimum is cheaper than a barred column.
   */
  ghost predicate Room(inp: Input)
    requires ValidInput(inp)
  {
    && (forall k, cb: nat :: 1 <= k < |inp.zeroes| && Opens(inp, k, cb) ==>
         LayerAt(inp, k).minBits.Some? && LayerAt(inp, k).minBits.value + Header(inp) < SENTINEL)
    && (|inp.zeroes| > 0 && BarsSome(inp, |inp.zeroes| - 1) ==>
         LayerAt(inp, |inp.zeroes|).minBits.Some? && LayerAt(inp, |inp.zeroes|).minBits.value < SENTINEL)
  }

  function Column(prevIdx: int): nat {
    if 0 <= prevIdx < CB_TOT_ALL then prevIdx else 0
  }

  /** The columns the back pointers of layer k, column cb lead through. */
  ghost function Recovered(inp: Input, k: nat, cb: nat): (a: seq<nat>)
    requires ValidInput(inp) && k <= |inp.zeroes| && cb < CB_TOT_ALL
    ensures |a| == k && (k > 0 ==> a[k - 1] == cb)
  {
    if k == 0 then [] else Recovered(inp, k - 1, Column(LayerAt(inp, k).points[cb].prevIdx)) + [cb]
  }

  /** One step of the recurrence, with the numbers it depends on. */
  lemma NextOf(inp: Input, j: nat, k: nat, cb: nat, p: Point, bits: real, crossing: real)
    requires ValidInput(inp) && k == j + 1 <= |inp.zeroes| && cb < CB_TOT_ALL && Admissible(inp, j, cb)
    requires p == LayerAt(inp, j).points[cb] && bits == BandBits(inp, j, cb) && crossing == Crossing(inp, p.run)
    ensures LayerAt(inp, k).points[cb] == Cheaper(inp, LayerAt(inp, j), cb, p, bits, crossing)
  {
    LayerNext(inp, j, k, cb);
    PointOf(inp, j, LayerAt(inp, j), cb, p, bits, crossing);
  }

  /** A new section where that is cheaper, else the column's own run goes on. */
  function Cheaper(inp: Input, l: Layer, cb: nat, p: Point, bits: real, crossing: real): Point {
    if l.minBits.Some? && l.minBits.value + Header(inp) < p.cost + crossing
    then Point(l.minCb, l.minBits.value + bits + Header(inp), 1)
    else Point(cb, p.cost + bits + crossing, p.run + 1)
  }

  lemma PointOf(inp: Input, j: nat, l: Layer, cb: nat, p: Point, bits: real, crossing: real)
    requires ValidInput(inp) && j < |inp.zeroes| && Admissible(inp, j, cb) && |l.points| == CB_TOT_ALL
    requires p == l.points[cb] && bits == BandBits(inp, j, cb) && crossing == Crossing(inp, p.run)
    ensures NextPoint(inp, j, l, cb) == Cheaper(inp, l, cb, p, bits, crossing)
  {
  }

  lemma BarredPoint(inp: Input, k: nat, cb: nat)
    requires ValidInput(inp) && 1 <= k <= |inp.zeroes| && cb < CB_TOT_ALL && !Admissible(inp, k - 1, cb)
    ensures LayerAt(inp, k).points[cb] == Point(-1, SENTINEL, 0)
  {
    LayerNext(inp, k - 1, k, cb);
  }

  /** How a reachable point was reached: first band, a longer run, or a new section elsewhere. */
  lemma PointOrigin(inp: Input, j: nat, k: nat, cb: nat)
    requires ValidInput(inp) && Room(inp) && k == j + 1 <= |inp.zeroes| && Admissible(inp, j, cb)
    ensures var p := LayerAt(inp, k).points[cb];
      var l := LayerAt(inp, j);
      if j == 0 then p == Point(cb, Header(inp) + BandBits(inp, 0, cb), 1)
      else if p.prevIdx == cb then
        && Admissible(inp, j - 1, cb) && p.run == l.points[cb].run + 1
        && p.cost == l.points[cb].cost + BandBits(inp, j, cb) + Crossing(inp, l.points[cb].run)
      else
        && p.prevIdx == l.minCb && Admissible(inp, j - 1, l.minCb) && p.run == 1
        && p.cost == l.points[l.minCb].cost + BandBits(inp, j, cb) + Header(inp)
  {
    var p := LayerAt(inp, j).points[cb];
    NextOf(inp, j, k, cb, p, BandBits(inp, j, cb), Crossing(inp, p.run));
    if j > 0 {
      LayerMin(inp, j);
      if !Admissible(inp, j - 1, cb) {
        assert Opens(inp, j, cb);
        BarredPoint(inp, j, cb);
      }
    }
  }

  lemma RecoveredStep(inp: Input, j: nat, k: nat, cb: nat) returns (prev: nat, before: Point, p: Point)
    requires ValidInput(inp) && Room(inp) && k == j + 1 && 2 <= k <= |inp.zeroes| && Admissible(inp, j, cb)
    ensures prev < CB_TOT_ALL && Admissible(inp, j - 1, prev)
    ensures p == LayerAt(inp, k).points[cb] && p.prevIdx == prev && before == LayerAt(inp, j).points[prev]
    ensures Recovered(inp, k, cb) == Recovered(inp, j, prev) + [cb]
    ensures p.run == if prev == cb then before.run + 1 else 1
    ensures p.cost == before.cost + BandBits(inp, j, cb) + if prev == cb then Crossing(inp, before.run) else Header(inp)
  {
    PointOrigin(inp, j, k, cb);
    p := LayerAt(inp, k).points[cb];
    prev := p.prevIdx;
    before := LayerAt(inp, j).points[prev];
  }

  lemma RecoveredFirst(inp: Input, cb: nat)
    requires ValidInput(inp) && 1 <= |inp.zeroes| && Admissible(inp, 0, cb)
    ensures Recovered(inp, 1, cb) == [cb]
    ensures LayerAt(inp, 1).points[cb] == Point(cb, Header(inp) + BandBits(inp, 0, cb), 1)
    ensures Assignment(inp, [cb]) && PathCost(inp, [cb]) == Header(inp) + BandBits(inp, 0, cb)
    ensures Sections([cb]) == [Section(cb, 1)]
  {
    assert Recovered(inp, 1, cb) == Recovered(inp, 0, Column(LayerAt(inp, 1).points[cb].prevIdx)) + [cb];
    LayerNext(inp, 0, 1, cb);
    ExtendCost(inp, [], cb);
    assert [] + [cb] == [cb];
    assert PathCost(inp, []) == 0.0;
  }

  /** The charge of a reachable point is exactly the charge of the columns it leads through. */
  lemma {:induction false} RecoveredCost(inp: Input, k: nat, cb: nat)
    requires ValidInput(inp) && Room(inp) && 1 <= k <= |inp.zeroes| && Admissible(inp, k - 1, cb)
    ensures Assignment(inp, Recovered(inp, k, cb))
    ensures PathCost(inp, Recovered(inp, k, cb)) == LayerAt(inp, k).points[cb].cost
    ensures LastRun(Recovered(inp, k, cb)) == LayerAt(inp, k).points[cb].run
  {
    if k == 1 {
      RecoveredFirst(inp, cb);
    } else {
      var j := k - 1;
      var prev, before, p := RecoveredStep(inp, j, k, cb);
      RecoveredCost(inp, j, prev);
      ExtendCost(inp, Recovered(inp, j, prev), cb);
    }
  }

  lemma SectionGrows(a: seq<nat>, cb: nat, head: seq<Section>, run: nat, more: nat)
    requires a != [] && a[|a| - 1] == cb && Sections(a) == head + [Section(cb, run)] && more == run + 1
    ensures Sections(a + [cb]) == head + [Section(cb, more)]
  {
    var front, was, now := SectionsLonger(a, cb);
    Slices.SameLast(front, Section(cb, was), head, Section(cb, run));
  }

  /**
   The section a point closes: its run is stored there, it began after band start, and the pointer stored at the point
   where it began leads on to an admissible column.
   */
  ghost predicate Closes(inp: Input, k: nat, cb: nat, run: nat, start: nat, after: nat, prev: nat)
    requires ValidInput(inp) && k <= |inp.zeroes| && cb < CB_TOT_ALL
  {
    && 1 <= run && start + run == k && after == start + 1 && prev < CB_TOT_ALL
    && LayerAt(inp, k).points[cb].run == run && LayerAt(inp, after).points[cb].prevIdx == prev
    && (start > 0 ==> Admissible(inp, start - 1, prev))
    && Sections(Recovered(inp, k, cb)) == Sections(Recovered(inp, start, prev)) + [Section(cb, run)]
  }

  lemma ClosesFirst(inp: Input, j: nat, k: nat, cb: nat)
    requires ValidInput(inp) && j == 0 && k == j + 1 <= |inp.zeroes| && Admissible(inp, j, cb)
    ensures Closes(inp, k, cb, 1, j, k, cb)
  {
    RecoveredFirst(inp, cb);
    assert Sections([]) == [];
  }

  lemma ClosesLonger(inp: Input, j: nat, k: nat, cb: nat, run: nat, start: nat, after: nat, prev: nat, more: nat)
    requires ValidInput(inp) && 1 <= j && k == j + 1 <= |inp.zeroes| && cb < CB_TOT_ALL
    requires Closes(inp, j, cb, run, start, after, prev) && more == run + 1
    requires LayerAt(inp, k).points[cb].run == more && Recovered(inp, k, cb) == Recovered(inp, j, cb) + [cb]
    ensures Closes(inp, k, cb, more, start, after, prev)
  {
    SectionGrows(Recovered(inp, j, cb), cb, Sections(Recovered(inp, start, prev)), run, more);
  }

  lemma ClosesNew(inp: Input, j: nat, k: nat, cb: nat, prev: nat)
    requires ValidInput(inp) && 1 <= j && k == j + 1 <= |inp.zeroes| && cb < CB_TOT_ALL && prev < CB_TOT_ALL && prev != cb
    requires LayerAt(inp, k).points[cb].run == 1 && LayerAt(inp, k).points[cb].prevIdx == prev
    requires Admissible(inp, j - 1, prev) && Recovered(inp, k, cb) == Recovered(inp, j, prev) + [cb]
    ensures Closes(inp, k, cb, 1, j, k, prev)
  {
    SectionsOpen(Recovered(inp, j, prev), cb);
  }

  /** Every admissible point closes a section that way. */
  lemma {:induction false} RunBack(inp: Input, k: nat, cb: nat) returns (run: nat, start: nat, after: nat, prev: nat)
    requires ValidInput(inp) && Room(inp) && 1 <= k <= |inp.zeroes| && Admissible(inp, k - 1, cb)
    ensures Closes(inp, k, cb, run, start, after, prev)
  {
    var j := k - 1;
    if j == 0 {
      run, start, after, prev := 1, j, k, cb;
      ClosesFirst(inp, j, k, cb);
    } else {
      var before, p;
      prev, before, p := RecoveredStep(inp, j, k, cb);
      if prev == cb {
        var shorter;
        shorter, start, after, prev := RunBack(inp, j, cb);
        run := p.run;
        ClosesLonger(inp, j, k, cb, shorter, start, after, prev, run);
      } else {
        run, start, after := 1, j, k;
        ClosesNew(inp, j, k, cb, prev);
      }
    }
  }

  // ----- the price table against the writer

  lemma {:induction false} EmittedLength(short: bool, secs: seq<Section>)
    ensures |SectionsCode(short, secs)| == EmittedTotal(short, secs)
  {
    if secs != [] {
      var n := |secs| - 1;
      assert secs == secs[..n] + [secs[n]];
      SectionsCodeAppend(short, secs[..n], [secs[n]]);
      assert SectionsCode(short, [secs[n]]) == SectionCode(short, secs[n]);
      EmittedLength(short, secs[..n]);
      RunCodeLength(short, secs[n].run);
    }
  }

  /** Sections of exactly 14 bands, which the short-window table prices one piece too low. */
  function Underpriced(short: bool, secs: seq<Section>): nat {
    if secs == [] then 0
    else Underpriced(short, secs[..|secs| - 1]) + if short && secs[|secs| - 1].run == 14 then 1 else 0
  }

  lemma RunPrice(short: bool, run: nat)
    requires run <= if short then 15 else 51
    ensures RunLength(short, run) == RunValueBits(short, run) + if short && run == 14 then 3 else 0
  {
    if short {
      assert run / 7 == if run < 7 then 0 else if run < 14 then 1 else 2;
    } else {
      assert run / 31 == if run < 31 then 0 else 1;
    }
  }

  lemma {:induction false} TableAgainstWriter(short: bool, secs: seq<Section>)
    requires forall i :: 0 <= i < |secs| ==> secs[i].run <= if short then 15 else 51
    ensures EmittedTotal(short, secs) == TableTotal(short, secs) + 3 * Underpriced(short, secs)
  {
    if secs != [] {
      TableAgainstWriter(short, secs[..|secs| - 1]);
      RunPrice(short, secs[|secs| - 1].run);
    }
  }

  lemma {:induction false} UnderpricedRuns(short: bool, secs: seq<Section>)
    ensures Underpriced(short, secs) == 0 <==> forall i :: 0 <= i < |secs| ==> !(short && secs[i].run == 14)
  {
    if secs != [] {
      var n := |secs| - 1;
      UnderpricedRuns(short, secs[..n]);
      if Underpriced(short, secs) == 0 {
        forall i | 0 <= i < |secs| ensures !(short && secs[i].run == 14) {
          if i < n {
            assert secs[..n][i] == secs[i];
          }
        }
      }
    }
  }

  lemma {:induction false} SectionRuns(a: seq<nat>)
    ensures forall i :: 0 <= i < |Sections(a)| ==> 1 <= Sections(a)[i].run <= |a|
  {
    if a != [] {
      SectionRuns(a[..|a| - 1]);
    }
  }

  /** One more column lengthens the expansion by it, whichever way the sections take it. */
  lemma ExpandExtend(a: seq<nat>, cb: nat)
    ensures Expand(Sections(a + [cb])) == Expand(Sections(a)) + [cb]
  {
    if a != [] && a[|a| - 1] == cb {
      var head, run, more := SectionsLonger(a, cb);
      ExpandLast(head, cb, run);
      ExpandLast(head, cb, more);
      Slices.Assoc(Expand(head), Repeat(cb, run), [cb]);
    } else {
      SectionsOpen(a, cb);
      ExpandLast(Sections(a), cb, 1);
    }
  }

  /** The maximal runs expand to the assignment they came from. */
  lemma {:induction false} SectionsExpand(a: seq<nat>)
    ensures Expand(Sections(a)) == a && Bands(Sections(a)) == |a|
  {
    if a != [] {
      var b, cb := a[..|a| - 1], a[|a| - 1];
      assert a == b + [cb];
      SectionsExpand(b);
      ExpandExtend(b, cb);
    }
    ExpandLength(Sections(a));
  }

  lemma ExpandLast(head: seq<Section>, cb: nat, run: nat)
    ensures Expand(head + [Section(cb, run)]) == Expand(head) + Repeat(cb, run)
  {
    ExpandAppend(head, [Section(cb, run)]);
    ExpandSingle(Section(cb, run));
  }

  lemma ExpandSingle(s: Section)
    ensures Expand([s]) == Repeat(s.cb, s.run)
  {
    assert [s][1..] == [];
  }

  lemma SectionPrices(short: bool, a: seq<nat>)
    requires |a| <= if short then 15 else 51
    ensures |SectionsCode(short, Sections(a))| == TableTotal(short, Sections(a)) + 3 * Underpriced(short, Sections(a))
  {
    SectionRuns(a);
    EmittedLength(short, Sections(a));
    TableAgainstWriter(short, Sections(a));
  }

  /** The charge and the stream differ by 3 bits for each short section of exactly 14 bands. */
  lemma ChargeAgainstStream(inp: Input, a: seq<nat>)
    requires ValidInput(inp) && Assignment(inp, a)
    ensures StreamCost(inp, a) == PathCost(inp, a) + (3 * Underpriced(inp.short, Sections(a))) as real
    ensures StreamCost(inp, a) == PathCost(inp, a) <==>
      forall i :: 0 <= i < |Sections(a)| ==> !(inp.short && Sections(a)[i].run == 14)
  {
    var n := Underpriced(inp.short, Sections(a));
    SectionPrices(inp.short, a);
    UnderpricedRuns(inp.short, Sections(a));
    assert (3 * n) as real == 0.0 <==> n == 0;
  }

  // ----- a condition on the input that leaves room below the sentinel

  /** n section headers. */
  function Headers(inp: Input, n: nat): real {
    if n == 0 then 0.0 else Headers(inp, n - 1) + Header(inp)
  }

  lemma HeadersMonotone(inp: Input, m: nat, n: nat)
    requires m <= n
    ensures Headers(inp, m) <= Headers(inp, n)
  {
  }

  lemma {:induction false} BandTotalPrefix(inp: Input, a: seq<nat>, k: nat)
    requires ValidInput(inp) && Assignment(inp, a) && k <= |a|
    ensures Assignment(inp, a[..k]) && BandTotal(inp, a[..k]) <= BandTotal(inp, a)
    decreases |a|
  {
    if k == |a| {
      assert a[..k] == a;
    } else {
      var n := |a| - 1;
      assert a[..n][..k] == a[..k];
      BandTotalPrefix(inp, a[..n], k);
    }
  }

  lemma MinStep(inp: Input, n: nat, n1: nat, cb: nat)
    requires ValidInput(inp) && n1 == n + 1 <= |inp.zeroes| && Admissible(inp, n, cb)
    ensures var before, l := LayerAt(inp, n).minBits, LayerAt(inp, n1);
      && l.minBits.Some?
      && (n == 0 ==> l.minBits.value <= BandBits(inp, n, cb) + Header(inp))
      && (before.Some? ==> l.minBits.value <= before.value + BandBits(inp, n, cb) + Header(inp))
  {
    LayerMin(inp, n1);
    if n == 0 {
      RecoveredFirst(inp, cb);
    } else {
      PointUpper(inp, n, n1, cb);
    }
  }

  lemma {:induction false} MinBound(inp: Input, a: seq<nat>)
    requires ValidInput(inp) && Assignment(inp, a) && a != []
    ensures LayerAt(inp, |a|).minBits.Some?
    ensures LayerAt(inp, |a|).minBits.value <= BandTotal(inp, a) + Headers(inp, |a|)
  {
    var n := |a| - 1;
    MinStep(inp, n, |a|, a[n]);
    if n > 0 {
      AssignmentPrefix(inp, a, n);
      MinBound(inp, a[..n]);
    } else {
      assert BandTotal(inp, a[..0]) == 0.0;
    }
  }

  /** One section header per band, for some admissible choice, still fits below the sentinel. */
  lemma RoomSuffices(inp: Input, a: seq<nat>)
    requires ValidInput(inp) && Assignment(inp, a) && |a| == |inp.zeroes|
    requires BandTotal(inp, a) + Headers(inp, |a|) < SENTINEL
    ensures Room(inp)
  {
    forall k, cb: nat | 1 <= k < |inp.zeroes| && Opens(inp, k, cb)
      ensures LayerAt(inp, k).minBits.Some? && LayerAt(inp, k).minBits.value + Header(inp) < SENTINEL
    {
      RoomAt(inp, a, k);
      HeadersMonotone(inp, k + 1, |a|);
    }
    if |a| > 0 {
      RoomAt(inp, a, |a|);
    }
  }

  lemma RoomAt(inp: Input, a: seq<nat>, k: nat)
    requires ValidInput(inp) && Assignment(inp, a) && 1 <= k <= |a|
    ensures LayerAt(inp, k).minBits.Some?
    ensures LayerAt(inp, k).minBits.value <= BandTotal(inp, a) + Headers(inp, k)
  {
    BandTotalPrefix(inp, a, k);
    var b := a[..k];
    MinBound(inp, b);
  }

  // ----- the selected columns

  ghost predicate Cheapest(inp: Input, idx: nat)
    requires ValidInput(inp) && idx < CB_TOT_ALL
  {
    var l := LayerAt(inp, |inp.zeroes|);
    forall cb :: 0 <= cb < CB_TOT_ALL ==> l.points[idx].cost <= l.points[cb].cost
  }

  lemma BarredCost(inp: Input, k: nat)
    requires ValidInput(inp) && 1 <= k <= |inp.zeroes|
    ensures forall cb: nat :: cb < CB_TOT_ALL && !Admissible(inp, k - 1, cb) ==> LayerAt(inp, k).points[cb].cost == SENTINEL
  {
    forall cb: nat | cb < CB_TOT_ALL && !Admissible(inp, k - 1, cb)
      ensures LayerAt(inp, k).points[cb].cost == SENTINEL
    {
      BarredPoint(inp, k, cb);
    }
  }

  lemma CheapestCost(inp: Input, idx: nat)
    requires ValidInput(inp) && |inp.zeroes| > 0 && idx < CB_TOT_ALL && Cheapest(inp, idx)
    ensures LayerAt(inp, |inp.zeroes|).minBits.Some?
    ensures LayerAt(inp, |inp.zeroes|).points[idx].cost <= LayerAt(inp, |inp.zeroes|).minBits.value
  {
    LayerMin(inp, |inp.zeroes|);
  }

  /** The cheapest final column is one the last band may use. */
  lemma CheapestAdmissible(inp: Input, idx: nat)
    requires ValidInput(inp) && Room(inp) && |inp.zeroes| > 0 && idx < CB_TOT_ALL && Cheapest(inp, idx)
    ensures Admissible(inp, |inp.zeroes| - 1, idx)
  {
    CheapestCost(inp, idx);
    BarredCost(inp, |inp.zeroes|);
  }

  /** Every cheapest final column is admissible, and so is all that the back pointers of admissible points lead through. */
  ghost predicate OnlyAdmissible(inp: Input)
    requires ValidInput(inp)
  {
    && (forall idx: nat :: |inp.zeroes| > 0 && idx < CB_TOT_ALL && Cheapest(inp, idx) ==>
         Admissible(inp, |inp.zeroes| - 1, idx))
    && (forall k, cb: nat :: 1 <= k <= |inp.zeroes| && cb < CB_TOT_ALL && Admissible(inp, k - 1, cb) ==>
         Assignment(inp, Recovered(inp, k, cb)))
  }

  /** A point whose column opens up without room continues the barred one. */
  lemma ContinuesBarred(inp: Input, k: nat, cb: nat)
    requires ValidInput(inp) && 1 <= k < |inp.zeroes| && Opens(inp, k, cb)
    requires LayerAt(inp, k).minBits.Some? && LayerAt(inp, k).minBits.value + Header(inp) >= SENTINEL
    ensures !Assignment(inp, Recovered(inp, k + 1, cb))
  {
    var n, a := k + 1, Recovered(inp, k + 1, cb);
    BarredPoint(inp, k, cb);
    LayerNext(inp, k, n, cb);
    assert LayerAt(inp, n).points[cb].prevIdx == cb;
    assert a == Recovered(inp, k, cb) + [cb];
    assert a[k - 1] == cb;
  }

  lemma BarredCheapest(inp: Input, cb: nat)
    requires ValidInput(inp) && |inp.zeroes| > 0 && cb < CB_TOT_ALL && !Admissible(inp, |inp.zeroes| - 1, cb)
    requires LayerAt(inp, |inp.zeroes|).minBits.Some? && LayerAt(inp, |inp.zeroes|).minBits.value >= SENTINEL
    ensures Cheapest(inp, cb)
  {
    var n := |inp.zeroes|;
    LayerMin(inp, n);
    BarredPoint(inp, n, cb);
    BarredCost(inp, n);
    forall c | 0 <= c < CB_TOT_ALL
      ensures SENTINEL <= LayerAt(inp, n).points[c].cost
    {
      var column: nat := c;
      assert Admissible(inp, n - 1, column) || LayerAt(inp, n).points[column].cost == SENTINEL;
    }
  }

  /** The sentinel does its work exactly when there is room below it. */
  lemma RoomExactly(inp: Input)
    requires ValidInput(inp)
    ensures Room(inp) <==> OnlyAdmissible(inp)
  {
    var n := |inp.zeroes|;
    if Room(inp) {
      forall idx: nat | n > 0 && idx < CB_TOT_ALL && Cheapest(inp, idx)
        ensures Admissible(inp, n - 1, idx)
      {
        CheapestAdmissible(inp, idx);
      }
      forall k, cb: nat | 1 <= k <= n && cb < CB_TOT_ALL && Admissible(inp, k - 1, cb)
        ensures Assignment(inp, Recovered(inp, k, cb))
      {
        RecoveredCost(inp, k, cb);
      }
    }
    if OnlyAdmissible(inp) {
      OnlyAdmissibleRoom(inp);
    }
  }

  lemma OnlyAdmissibleRoom(inp: Input)
    requires ValidInput(inp) && OnlyAdmissible(inp)
    ensures Room(inp)
  {
    var n := |inp.zeroes|;
    forall k, cb: nat | 1 <= k < n && Opens(inp, k, cb)
      ensures LayerAt(inp, k).minBits.Some? && LayerAt(inp, k).minBits.value + Header(inp) < SENTINEL
    {
      LayerMin(inp, k);
      if LayerAt(inp, k).minBits.value + Header(inp) >= SENTINEL {
        ContinuesBarred(inp, k, cb);
      }
    }
    if n > 0 && BarsSome(inp, n - 1) {
      var cb: nat :| cb < CB_TOT_ALL && !Admissible(inp, n - 1, cb);
      LayerMin(inp, n);
      if LayerAt(inp, n).minBits.value >= SENTINEL {
        BarredCheapest(inp, cb);
      }
    }
  }

  /** One coded band of codebook 1: from 61441 bits on, codebook 0, which the band may not use, is a cheapest column. */
  lemma BarredSelected(bits: real) returns (inp: Input)
    requires bits >= 0.0
    ensures inp.zeroes == [false] && inp.bandType == [1] && inp.bits == [seq(CB_TOT_ALL, _ => bits)]
    ensures ValidInput(inp) && !Admissible(inp, 0, 0) && (Cheapest(inp, 0) <==> bits >= 61441.0)
  {
    inp := Input(false, [false], [1], [seq(CB_TOT_ALL, _ => bits)]);
    LayerMin(inp, 1);
    var cb := LayerAt(inp, 1).minCb;
    RecoveredFirst(inp, cb);
    BarredCost(inp, 1);
    if bits >= 61441.0 {
      BarredCheapest(inp, 0);
    }
  }

  /** Optimality: without run escapes no admissible choice takes fewer bits in the stream. */
  lemma TrellisOptimal(inp: Input, idx: nat, b: seq<nat>)
    requires ValidInput(inp) && Room(inp) && NoEscapes(inp) && |inp.zeroes| > 0
    requires idx < CB_TOT_ALL && Cheapest(inp, idx)
    requires Assignment(inp, b) && |b| == |inp.zeroes|
    ensures Assignment(inp, Recovered(inp, |inp.zeroes|, idx))
    ensures StreamCost(inp, Recovered(inp, |inp.zeroes|, idx)) <= StreamCost(inp, b)
  {
    var a := Recovered(inp, |inp.zeroes|, idx);
    CheapestAdmissible(inp, idx);
    RecoveredCost(inp, |inp.zeroes|, idx);
    LowerBound(inp, b);
    SectionRuns(a);
    SectionRuns(b);
    ChargeAgainstStream(inp, a);
    ChargeAgainstStream(inp, b);
  }
}
