/**
 The codebook selector itself: fill the table of path points, walk it back into sections, write the
 sections and the band types.
 */
module TrellisCoder {
  import opened Wrappers
  import opened BitStrings
  import opened SectionData
  import opened Trellis
  import opened TrellisProofs
  import Slices

  // ----- filling the table

  const BARRED: Point := Point(-1, SENTINEL, 0)

  /** Stay in the section or start a new one, whichever is cheaper; staying wins ties. */
  function Candidate(inp: Input, swb: nat, before: Point, minBits: Option<real>, minCb: nat, cb: nat): Point
    requires ValidInput(inp) && swb < |inp.zeroes| && cb < CB_TOT_ALL
  {
    var bits := if inp.zeroes[swb] then 0.0 else inp.bits[swb][cb];
    var runBits := RunBits(inp.short) as real;
    var stay := before.cost + bits +
      if RunValueBits(inp.short, before.run) != RunValueBits(inp.short, before.run + 1) then runBits else 0.0;
    if minBits.Some? && minBits.value + bits + runBits + 4.0 < stay
    then Point(minCb, minBits.value + bits + runBits + 4.0, 1)
    else Point(cb, stay, before.run + 1)
  }

  lemma CandidateIsNext(inp: Input, swb: nat, l: Layer, cb: nat)
    requires ValidInput(inp) && swb < |inp.zeroes| && |l.points| == CB_TOT_ALL && cb < CB_TOT_ALL
    ensures NextLayer(inp, swb, l).points[cb] ==
      if Admissible(inp, swb, cb) then Candidate(inp, swb, l.points[cb], l.minBits, l.minCb, cb) else BARRED
  {
  }

  /** A zero band may only use column 0; everything else is barred. */
  method FillZeroBand(inp: Input, swb: nat, row: array<Point>, l: Layer)
    returns (nextMinBits: Option<real>, nextMinCb: nat)
    requires ValidInput(inp) && swb < |inp.zeroes| && inp.zeroes[swb]
    requires row.Length == CB_TOT_ALL == |l.points|
    modifies row
    ensures Layer(row[..], nextMinBits, nextMinCb) == NextLayer(inp, swb, l)
  {
    ghost var next := NextLayer(inp, swb, l).points;
    CandidateIsNext(inp, swb, l, 0);
    row[0] := Candidate(inp, swb, l.points[0], l.minBits, l.minCb, 0);
    nextMinBits, nextMinCb := Some(row[0].cost), 0;
    var cb := 1;
    while cb < CB_TOT_ALL
      invariant 1 <= cb <= CB_TOT_ALL && row[..cb] == next[..cb]
    {
      CandidateIsNext(inp, swb, l, cb);
      row[cb] := BARRED;
      cb := cb + 1;
    }
    assert row[..] == next;
    ZeroBandMin(inp, swb, next, CB_TOT_ALL);
  }

  lemma {:induction false} ZeroBandMin(inp: Input, swb: nat, points: seq<Point>, n: nat)
    requires swb < |inp.zeroes| == |inp.bandType| && inp.zeroes[swb] && 1 <= n <= |points|
    ensures RunningMin(inp, swb, points, n) == (Some(points[0].cost), 0)
  {
    if n > 1 {
      ZeroBandMin(inp, swb, points, n - 1);
    }
  }

  lemma RunningMinStep(inp: Input, swb: nat, points: seq<Point>, n: nat, n1: nat)
    requires swb < |inp.zeroes| == |inp.bandType| && n < |points| && n1 == n + 1
    ensures RunningMin(inp, swb, points, n1) ==
      var r := RunningMin(inp, swb, points, n);
      if Admissible(inp, swb, n) && (r.0.None? || points[n].cost < r.0.value) then (Some(points[n].cost), n) else r
  {
  }

  /** A coded band: every column from the current type's up competes, the first cheapest is remembered. */
  method FillCodedBand(inp: Input, swb: nat, row: array<Point>, l: Layer)
    returns (nextMinBits: Option<real>, nextMinCb: nat)
    requires ValidInput(inp) && swb < |inp.zeroes| && !inp.zeroes[swb]
    requires row.Length == CB_TOT_ALL == |l.points|
    modifies row
    ensures Layer(row[..], nextMinBits, nextMinCb) == NextLayer(inp, swb, l)
  {
    ghost var next := NextLayer(inp, swb, l).points;
    var startCb := InMap(inp.bandType[swb]);
    nextMinBits, nextMinCb := None, 0;
    var cb := 0;
    while cb < CB_TOT_ALL
      invariant cb <= CB_TOT_ALL && row[..cb] == next[..cb]
      invariant (nextMinBits, nextMinCb) == RunningMin(inp, swb, next, cb)
    {
      CandidateIsNext(inp, swb, l, cb);
      ghost var cb1 := cb + 1;
      RunningMinStep(inp, swb, next, cb, cb1);
      if cb < startCb || (cb >= 12 && inp.bandType[swb] != OutMap(cb)) {
        row[cb] := BARRED;
      } else {
        row[cb] := Candidate(inp, swb, l.points[cb], l.minBits, l.minCb, cb);
        if nextMinBits.None? || row[cb].cost < nextMinBits.value {
          nextMinBits, nextMinCb := Some(row[cb].cost), cb;
        }
      }
      assert row[..cb1] == row[..cb] + [row[cb]] && next[..cb1] == next[..cb] + [next[cb]];
      cb := cb + 1;
    }
    assert row[..] == next;
  }

  /** The rows of path points up to band k: one per band, and the row before the first band. */
  ghost function Rows(inp: Input, k: nat): (r: seq<seq<Point>>)
    requires ValidInput(inp) && k <= |inp.zeroes|
    ensures |r| == k + 1
  {
    if k == 0 then [FirstLayer(inp).points] else Rows(inp, k - 1) + [LayerAt(inp, k).points]
  }

  lemma {:induction false} RowAt(inp: Input, k: nat, i: nat)
    requires ValidInput(inp) && i <= k <= |inp.zeroes|
    ensures Rows(inp, k)[i] == LayerAt(inp, i).points
  {
    if i < k {
      var j := k - 1;
      RowAt(inp, j, i);
      assert Rows(inp, k) == Rows(inp, j) + [LayerAt(inp, k).points];
    }
  }

  ghost predicate TableFilled(inp: Input, path: array<seq<Point>>)
    requires ValidInput(inp)
    reads path
  {
    path[..] == Rows(inp, |inp.zeroes|)
  }

  method FillRow(inp: Input, swb: nat, l: Layer) returns (next: Layer)
    requires ValidInput(inp) && swb < |inp.zeroes| && |l.points| == CB_TOT_ALL
    ensures next == NextLayer(inp, swb, l)
  {
    var row := new Point[CB_TOT_ALL](_ => BARRED);
    var minBits, minCb;
    if inp.zeroes[swb] {
      minBits, minCb := FillZeroBand(inp, swb, row, l);
    } else {
      minBits, minCb := FillCodedBand(inp, swb, row, l);
    }
    next := Layer(row[..], minBits, minCb);
  }

  lemma LayerStep(inp: Input, swb: nat, k: nat)
    requires ValidInput(inp) && swb < |inp.zeroes| && k == swb + 1
    ensures LayerAt(inp, k) == NextLayer(inp, swb, LayerAt(inp, swb))
    ensures Rows(inp, k) == Rows(inp, swb) + [LayerAt(inp, k).points]
  {
  }

  lemma FirstRow(inp: Input)
    requires ValidInput(inp)
    ensures Rows(inp, 0) == [FirstLayer(inp).points] && LayerAt(inp, 0) == FirstLayer(inp)
  {
  }

  /** One more band: its row joins the table. */
  method ExtendPath(inp: Input, path: array<seq<Point>>, swb: nat, ghost k: nat, last: Layer) returns (next: Layer)
    requires ValidInput(inp) && swb < |inp.zeroes| && k == swb + 1 && path.Length == |inp.zeroes| + 1
    requires path[..k] == Rows(inp, swb) && last == LayerAt(inp, swb)
    modifies path
    ensures path[..k + 1] == Rows(inp, k) && next == LayerAt(inp, k)
  {
    LayerStep(inp, swb, k);
    next := FillRow(inp, swb, last);
    ghost var rows := path[..k];
    path[swb + 1] := next.points;
    assert path[..k + 1] == rows + [next.points];
  }

  method FillPath(inp: Input) returns (path: array<seq<Point>>)
    requires ValidInput(inp)
    ensures fresh(path) && path.Length == |inp.zeroes| + 1
    ensures TableFilled(inp, path)
  {
    path := new seq<Point>[|inp.zeroes| + 1];
    var last := FirstLayer(inp);
    path[0] := last.points;
    var swb := 0;
    ghost var k := 1;
    assert path[..1] == [path[0]];
    FirstRow(inp);
    while swb < |inp.zeroes|
      invariant swb <= |inp.zeroes| && k == swb + 1
      invariant path[..k] == Rows(inp, swb) && last == LayerAt(inp, swb)
    {
      last := ExtendPath(inp, path, swb, k, last);
      swb := swb + 1;
      k := k + 1;
    }
    assert path[..] == path[..k];
  }

  // ----- walking back

  method CheapestColumn(inp: Input, path: array<seq<Point>>) returns (idx: nat)
    requires ValidInput(inp) && path.Length == |inp.zeroes| + 1
    requires TableFilled(inp, path)
    ensures idx < CB_TOT_ALL && Cheapest(inp, idx)
  {
    var k := |inp.zeroes|;
    RowAt(inp, k, k);
    ghost var rows := path[..];
    assert path[k] == rows[k];
    idx := FirstCheapest(path[k]);
  }

  method FirstCheapest(row: seq<Point>) returns (idx: nat)
    requires row != []
    ensures idx < |row| && forall c :: 0 <= c < |row| ==> row[idx].cost <= row[c].cost
    ensures forall c :: 0 <= c < idx ==> row[idx].cost < row[c].cost
  {
    idx := 0;
    var cb := 1;
    while cb < |row|
      invariant 1 <= cb <= |row| && idx < cb
      invariant forall c :: 0 <= c < cb ==> row[idx].cost <= row[c].cost
      invariant forall c :: 0 <= c < idx ==> row[idx].cost < row[c].cost
    {
      if row[cb].cost < row[idx].cost {
        idx := cb;
      }
      cb := cb + 1;
    }
  }

  /** The stack holds the sections last one first. */
  ghost predicate Stacked(stackRun: seq<nat>, stackCb: seq<nat>, secs: seq<Section>) {
    && |stackRun| == |stackCb| == |secs|
    && forall i :: 0 <= i < |secs| ==> secs[|secs| - 1 - i] == Section(stackCb[i], stackRun[i])
  }

  lemma StackStep(stackRun: seq<nat>, stackCb: seq<nat>, secs: seq<Section>, cb: nat, run: nat)
    requires Stacked(stackRun, stackCb, secs)
    ensures Stacked(stackRun + [run], stackCb + [cb], [Section(cb, run)] + secs)
  {
  }

  ghost predicate Shaped(rows: seq<seq<Point>>) {
    forall k :: 0 <= k < |rows| ==> |rows[k]| == CB_TOT_ALL
  }

  /** Runs and pointers lead from row ppos, column cb back to the row before the first band, through these sections. */
  ghost predicate Linked(rows: seq<seq<Point>>, ppos: nat, cb: int, secs: seq<Section>)
    requires Shaped(rows) && ppos < |rows|
    decreases ppos
  {
    if ppos == 0 then secs == []
    else
      && 0 <= cb < CB_TOT_ALL && 1 <= rows[ppos][cb].run <= ppos
      && var run := rows[ppos][cb].run;
         && secs != [] && secs[|secs| - 1] == Section(cb, run)
         && Linked(rows, ppos - run, rows[ppos - run + 1][cb].prevIdx, secs[..|secs| - 1])
  }

  lemma RowsShaped(inp: Input)
    requires ValidInput(inp)
    ensures Shaped(Rows(inp, |inp.zeroes|))
  {
    forall k | 0 <= k <= |inp.zeroes|
      ensures |Rows(inp, |inp.zeroes|)[k]| == CB_TOT_ALL
    {
      RowAt(inp, |inp.zeroes|, k);
    }
  }

  lemma LinkStep(rows: seq<seq<Point>>, k: nat, cb: nat, run: nat, prev: int, head: seq<Section>)
    requires Shaped(rows) && 1 <= run <= k < |rows| && cb < CB_TOT_ALL && rows[k][cb].run == run
    requires rows[k - run + 1][cb].prevIdx == prev && Linked(rows, k - run, prev, head)
    ensures Linked(rows, k, cb, head + [Section(cb, run)])
  {
    assert (head + [Section(cb, run)])[..|head|] == head;
  }

  /** What the table holds at the two ends of the section a point closes. */
  lemma SectionEnds(inp: Input, rows: seq<seq<Point>>, k: nat, cb: nat) returns (run: nat, start: nat, prev: nat)
    requires ValidInput(inp) && Room(inp) && 1 <= k <= |inp.zeroes| && Admissible(inp, k - 1, cb)
    requires Shaped(rows) && rows == Rows(inp, |inp.zeroes|)
    ensures 1 <= run <= k && start == k - run && prev < CB_TOT_ALL
    ensures rows[k][cb].run == run && rows[start + 1][cb].prevIdx == prev
    ensures start > 0 ==> Admissible(inp, start - 1, prev)
    ensures Sections(Recovered(inp, k, cb)) == Sections(Recovered(inp, start, prev)) + [Section(cb, run)]
  {
    var after;
    run, start, after, prev := RunBack(inp, k, cb);
    RowAt(inp, |inp.zeroes|, k);
    RowAt(inp, |inp.zeroes|, after);
  }

  /** The table of an input leads through the sections of the recovered columns. */
  lemma {:induction false} RecoveredLinked(inp: Input, rows: seq<seq<Point>>, k: nat, cb: nat)
    requires ValidInput(inp) && Room(inp) && 1 <= k <= |inp.zeroes| && Admissible(inp, k - 1, cb)
    requires Shaped(rows) && rows == Rows(inp, |inp.zeroes|)
    ensures Linked(rows, k, cb, Sections(Recovered(inp, k, cb)))
  {
    var run, start, prev := SectionEnds(inp, rows, k, cb);
    if start > 0 {
      RecoveredLinked(inp, rows, start, prev);
    }
    LinkStep(rows, k, cb, run, prev, Sections(Recovered(inp, start, prev)));
  }

  lemma ChainLinked(inp: Input, rows: seq<seq<Point>>, cb: nat)
    requires ValidInput(inp) && Room(inp) && cb < CB_TOT_ALL
    requires |inp.zeroes| > 0 ==> Admissible(inp, |inp.zeroes| - 1, cb)
    requires Shaped(rows) && rows == Rows(inp, |inp.zeroes|)
    ensures Linked(rows, |inp.zeroes|, cb, Sections(Recovered(inp, |inp.zeroes|, cb)))
  {
    if |inp.zeroes| > 0 {
      RecoveredLinked(inp, rows, |inp.zeroes|, cb);
    }
  }

  /** Each jump consumes a whole section, so the walk ends with all of them stacked. */
  method Backtrack(path: array<seq<Point>>, best: nat, ghost all: seq<Section>)
    returns (stackRun: seq<nat>, stackCb: seq<nat>)
    requires path.Length > 0 && Shaped(path[..]) && Linked(path[..], path.Length - 1, best, all)
    ensures Stacked(stackRun, stackCb, all)
  {
    stackRun, stackCb := [], [];
    var idx: int := best;
    var ppos: nat := path.Length - 1;
    ghost var rows, left, secs: seq<Section> := path[..], all, [];
    while ppos > 0
      invariant ppos < path.Length && Linked(rows, ppos, idx, left)
      invariant Stacked(stackRun, stackCb, secs) && all == left + secs
      decreases ppos
    {
      var cb := idx;
      var run := path[ppos][cb].run;
      StackStep(stackRun, stackCb, secs, cb, run);
      Slices.LastOver(left, secs);
      stackRun := stackRun + [run];
      stackCb := stackCb + [cb];
      idx := path[ppos - run + 1][cb].prevIdx;
      ppos := ppos - run;
      left, secs := left[..|left| - 1], [left[|left| - 1]] + secs;
    }
  }

  // ----- writing

  /** The run in pieces, all-ones while it does not fit. */
  method PutRun(short: bool, pb: Code, run: nat) returns (out: Code)
    ensures out == pb + RunCode(short, run)
  {
    out := pb;
    var count: nat := run;
    while count >= RunEsc(short)
      invariant out + RunCode(short, count) == pb + RunCode(short, run)
      decreases count
    {
      assert out + RunCode(short, count)
        == PutBits(out, RunBits(short), RunEsc(short)) + RunCode(short, count - RunEsc(short));
      out := PutBits(out, RunBits(short), RunEsc(short));
      count := count - RunEsc(short);
    }
    out := PutBits(out, RunBits(short), count);
  }

  /** Which of the band types stand for bands without coefficients. */
  function ZeroFlags(types: seq<nat>): (r: seq<bool>)
    ensures |r| == |types|
    ensures forall i :: 0 <= i < |types| ==> r[i] == (types[i] == 0)
  {
    seq(|types|, i requires 0 <= i < |types| => types[i] == 0)
  }

  lemma FlagsAppend(types: seq<nat>, more: seq<nat>)
    ensures ZeroFlags(types + more) == ZeroFlags(types) + ZeroFlags(more)
  {
  }

  method WriteBands(bandType: array<nat>, zeroes: array<bool>, start: nat, count: nat, codebook: nat)
    requires start + count <= bandType.Length && start + count <= zeroes.Length
    modifies bandType, zeroes
    ensures bandType[..] == Slices.Splice(old(bandType[..]), start, Repeat(codebook, count))
    ensures zeroes[..] == Slices.Splice(old(zeroes[..]), start, ZeroFlags(Repeat(codebook, count)))
  {
    ghost var types, flags := bandType[..], zeroes[..];
    var j := 0;
    while j < count
      invariant j <= count
      invariant forall i :: 0 <= i < bandType.Length ==>
        bandType[i] == if start <= i < start + j then codebook else types[i]
      invariant forall i :: 0 <= i < zeroes.Length ==>
        zeroes[i] == if start <= i < start + j then codebook == 0 else flags[i]
    {
      bandType[start + j] := codebook;
      zeroes[start + j] := codebook == 0;
      j := j + 1;
    }
    assert bandType[..] == Slices.Splice(types, start, Repeat(codebook, count));
    assert zeroes[..] == Slices.Splice(flags, start, ZeroFlags(Repeat(codebook, count)));
  }

  lemma ReverseStep(short: bool, secs: seq<Section>, k: nat)
    requires k < |secs|
    ensures SectionsCode(short, secs[..k + 1]) == SectionsCode(short, secs[..k]) + SectionCode(short, secs[k])
    ensures Expand(secs[..k + 1]) == Expand(secs[..k]) + Repeat(secs[k].cb, secs[k].run)
    ensures Bands(secs[..k + 1]) == Bands(secs[..k]) + secs[k].run
  {
    assert secs[..k + 1] == secs[..k] + [secs[k]];
    SectionsCodeAppend(short, secs[..k], [secs[k]]);
    assert SectionsCode(short, [secs[k]]) == SectionCode(short, secs[k]);
    ExpandAppend(secs[..k], [secs[k]]);
    ExpandSingle(secs[k]);
    ExpandLength(secs[..k + 1]);
    ExpandLength(secs[..k]);
  }

  lemma {:induction false} BandsPrefix(secs: seq<Section>, k: nat)
    requires k <= |secs|
    ensures Bands(secs[..k]) <= Bands(secs)
  {
    assert secs == secs[..k] + secs[k..];
    ExpandAppend(secs[..k], secs[k..]);
    ExpandLength(secs);
    ExpandLength(secs[..k]);
  }

  /** The first k sections are in the stream and in the band types from base on. */
  ghost predicate Written(short: bool, pb: Code, out: Code, secs: seq<Section>, k: nat, types: seq<nat>)
  {
    && k <= |secs|
    && out == pb + SectionsCode(short, secs[..k])
    && types == BandTypes(Expand(secs[..k]))
    && |types| == Bands(secs[..k]) <= Bands(secs)
  }

  lemma WriteTypes(secs: seq<Section>, k: nat, types: seq<nat>)
    requires k < |secs| && types == BandTypes(Expand(secs[..k]))
    requires Expand(secs[..k + 1]) == Expand(secs[..k]) + Repeat(secs[k].cb, secs[k].run)
    ensures types + Repeat(OutMap(secs[k].cb), secs[k].run) == BandTypes(Expand(secs[..k + 1]))
  {
  }

  lemma WriteStep(short: bool, pb: Code, out: Code, secs: seq<Section>, k: nat, types: seq<nat>)
    requires Written(short, pb, out, secs, k, types) && k < |secs|
    ensures var s := secs[k];
      Written(short, pb, PutBits(out, 4, OutMap(s.cb)) + RunCode(short, s.run), secs, k + 1,
        types + Repeat(OutMap(s.cb), s.run))
  {
    var s := secs[k];
    ReverseStep(short, secs, k);
    BandsPrefix(secs, k + 1);
    WriteTypes(secs, k, types);
    var head := SectionsCode(short, secs[..k]);
    Slices.Assoc(pb + head, Codeword(OutMap(s.cb), 4), RunCode(short, s.run));
    Slices.Assoc(pb, head, SectionCode(short, s));
  }

  /** One section: its bits, and its band types and zero flags after those of the sections before it. */
  method EncodeSection(short: bool, pb: Code, cb: nat, count: nat, bandType: array<nat>, zeroes: array<bool>, start: nat,
      ghost wasTypes: seq<nat>, ghost wasFlags: seq<bool>, ghost base: nat, ghost types: seq<nat>) returns (out: Code)
    requires start == base + |types| && start + count <= bandType.Length == |wasTypes|
    requires start + count <= zeroes.Length == |wasFlags|
    requires bandType[..] == Slices.Splice(wasTypes, base, types)
    requires zeroes[..] == Slices.Splice(wasFlags, base, ZeroFlags(types))
    modifies bandType, zeroes
    ensures out == PutBits(pb, 4, OutMap(cb)) + RunCode(short, count)
    ensures bandType[..] == Slices.Splice(wasTypes, base, types + Repeat(OutMap(cb), count))
    ensures zeroes[..] == Slices.Splice(wasFlags, base, ZeroFlags(types + Repeat(OutMap(cb), count)))
  {
    var codebook := OutMap(cb);
    ghost var more := Repeat(codebook, count);
    out := PutBits(pb, 4, codebook);
    WriteBands(bandType, zeroes, start, count, codebook);
    Slices.SpliceMore(wasTypes, base, types, start, more);
    FlagsAppend(types, more);
    Slices.SpliceMore(wasFlags, base, ZeroFlags(types), start, ZeroFlags(more));
    out := PutRun(short, out, count);
  }

  method EncodeSections(short: bool, pb: Code, stackRun: seq<nat>, stackCb: seq<nat>, ghost secs: seq<Section>,
      bandType: array<nat>, zeroes: array<bool>, base: nat) returns (out: Code)
    requires Stacked(stackRun, stackCb, secs)
    requires base + |Expand(secs)| <= bandType.Length && base + |Expand(secs)| <= zeroes.Length
    modifies bandType, zeroes
    ensures out == pb + SectionsCode(short, secs)
    ensures bandType[..] == Slices.Splice(old(bandType[..]), base, BandTypes(Expand(secs)))
    ensures zeroes[..] == Slices.Splice(old(zeroes[..]), base, ZeroFlags(BandTypes(Expand(secs))))
  {
    out := pb;
    var start := base;
    var i: nat := |stackRun|;
    ghost var k: nat, types: seq<nat> := 0, [];
    ghost var wasTypes, wasFlags := bandType[..], zeroes[..];
    ExpandLength(secs);
    assert secs[..0] == [];
    while i > 0
      invariant i <= |stackRun| == |secs| && k == |secs| - i
      invariant Written(short, pb, out, secs, k, types) && start == base + |types|
      invariant bandType[..] == Slices.Splice(wasTypes, base, types)
      invariant zeroes[..] == Slices.Splice(wasFlags, base, ZeroFlags(types))
    {
      i := i - 1;
      assert secs[k] == Section(stackCb[i], stackRun[i]);
      WriteStep(short, pb, out, secs, k, types);
      ghost var more := types + Repeat(OutMap(stackCb[i]), stackRun[i]);
      out := EncodeSection(short, out, stackCb[i], stackRun[i], bandType, zeroes, start, wasTypes, wasFlags, base, types);
      start := start + stackRun[i];
      types, k := more, k + 1;
    }
    assert secs[..|secs|] == secs;
  }

  /** columns is an admissible choice for every band, and cheapest in the stream when runs cannot escape. */
  ghost predicate Selected(inp: Input, columns: seq<nat>)
    requires ValidInput(inp)
  {
    && Assignment(inp, columns) && |columns| == |inp.zeroes|
    && (NoEscapes(inp) ==> forall b :: Assignment(inp, b) && |b| == |inp.zeroes| ==>
         StreamCost(inp, columns) <= StreamCost(inp, b))
  }

  lemma CheapestSelected(inp: Input, idx: nat)
    requires ValidInput(inp) && Room(inp) && idx < CB_TOT_ALL && Cheapest(inp, idx)
    ensures Selected(inp, Recovered(inp, |inp.zeroes|, idx))
  {
    var columns := Recovered(inp, |inp.zeroes|, idx);
    if |inp.zeroes| > 0 {
      CheapestAdmissible(inp, idx);
      RecoveredCost(inp, |inp.zeroes|, idx);
    }
    forall b | NoEscapes(inp) && Assignment(inp, b) && |b| == |inp.zeroes|
      ensures StreamCost(inp, columns) <= StreamCost(inp, b)
    {
      if |b| > 0 {
        TrellisOptimal(inp, idx, b);
      } else {
        assert columns == b;
      }
    }
  }

  /** The search without the writing: the stacked sections of a selected choice of columns. */
  method SelectColumns(inp: Input) returns (stackRun: seq<nat>, stackCb: seq<nat>, ghost columns: seq<nat>)
    requires ValidInput(inp) && Room(inp)
    ensures Stacked(stackRun, stackCb, Sections(columns)) && Selected(inp, columns)
  {
    var path := FillPath(inp);
    var best := CheapestColumn(inp, path);
    if |inp.zeroes| > 0 {
      CheapestAdmissible(inp, best);
    }
    columns := Recovered(inp, |inp.zeroes|, best);
    RowsShaped(inp);
    ChainLinked(inp, path[..], best);
    stackRun, stackCb := Backtrack(path, best, Sections(columns));
    CheapestSelected(inp, best);
  }

  /** The codebook of a column: a codebook in use, not the reserved one, whose column it is. */
  predicate StandsFor(codebook: nat, column: nat) {
    codebook < 16 && codebook != 12 && InMap(codebook) == column
  }

  /** From base on the band types are the codebooks of these columns, and the flags tell where that is codebook 0. */
  ghost predicate Announces(types: seq<nat>, flags: seq<bool>, base: nat, columns: seq<nat>) {
    && base + |columns| <= |types| && base + |columns| <= |flags|
    && forall k :: base <= k < base + |columns| ==>
         StandsFor(types[k], columns[k - base]) && (flags[k] <==> columns[k - base] == 0)
  }

  lemma SplicedColumns(inp: Input, columns: seq<nat>, types: seq<nat>, flags: seq<bool>, base: nat)
    requires ValidInput(inp) && Assignment(inp, columns) && base + |columns| <= |types| && base + |columns| <= |flags|
    ensures Announces(Slices.Splice(types, base, BandTypes(columns)),
                      Slices.Splice(flags, base, ZeroFlags(BandTypes(columns))), base, columns)
  {
    var stored := BandTypes(columns);
    BandCodebooks(inp, columns);
    forall k | base <= k < base + |columns|
      ensures StandsFor(Slices.Splice(types, base, stored)[k], columns[k - base])
      ensures Slices.Splice(flags, base, ZeroFlags(stored))[k] <==> columns[k - base] == 0
    {
      assert StandsFor(stored[k - base], columns[k - base]);
    }
  }

  /** The selector: what it stores is what a parser reads back from what it appended to the stream. */
  method CodebookTrellisRate(inp: Input, pb: Code, bandType: array<nat>, zeroes: array<bool>, base: nat)
    returns (out: Code, ghost columns: seq<nat>)
    requires ValidInput(inp) && Room(inp)
    requires base + |inp.zeroes| <= bandType.Length && base + |inp.zeroes| <= zeroes.Length
    requires inp.bandType == bandType[base..base + |inp.zeroes|] && inp.zeroes == zeroes[base..base + |inp.zeroes|]
    modifies bandType, zeroes
    ensures Selected(inp, columns)
    ensures bandType[..] == Slices.Splice(old(bandType[..]), base, BandTypes(columns))
    ensures zeroes[..] == Slices.Splice(old(zeroes[..]), base, ZeroFlags(BandTypes(columns)))
    ensures Announces(bandType[..], zeroes[..], base, columns)
    ensures out == pb + SectionsCode(inp.short, Sections(columns))
    ensures ReadsBack(inp.short, out[|pb|..], columns)
  {
    var stackRun, stackCb;
    stackRun, stackCb, columns := SelectColumns(inp);
    SectionsExpand(columns);
    out := EncodeSections(inp.short, pb, stackRun, stackCb, Sections(columns), bandType, zeroes, base);
    SelectedReadsBack(inp, columns);
    assert out[|pb|..] == SectionsCode(inp.short, Sections(columns));
    SplicedColumns(inp, columns, old(bandType[..]), old(zeroes[..]), base);
  }

  lemma {:induction false} SectionColumns(inp: Input, a: seq<nat>)
    requires ValidInput(inp) && Assignment(inp, a)
    ensures WellFormed(Sections(a))
  {
    if a != [] {
      var n := |a| - 1;
      AssignmentPrefix(inp, a, n);
      SectionColumns(inp, a[..n]);
      assert Admissible(inp, n, a[n]);
    }
  }

  /** Whatever follows it in the stream, code parses to a codebook for each of the columns. */
  ghost predicate ReadsBack(short: bool, code: Code, columns: seq<nat>) {
    forall rest ::
      var r := ReadSections(short, code + rest, |columns|);
      r.Some? && r.value.1 == rest && Codebooks(r.value.0, columns)
  }

  predicate Codebooks(types: seq<nat>, columns: seq<nat>) {
    |types| == |columns| && forall i :: 0 <= i < |types| ==> StandsFor(types[i], columns[i])
  }

  lemma BandCodebooks(inp: Input, columns: seq<nat>)
    requires ValidInput(inp) && Assignment(inp, columns)
    ensures Codebooks(BandTypes(columns), columns)
  {
    forall i | 0 <= i < |columns|
      ensures StandsFor(OutMap(columns[i]), columns[i])
    {
      assert Admissible(inp, i, columns[i]);
      MapsInverse(columns[i], 0);
    }
  }

  /** Parsing what was written for any admissible columns gives back their codebooks and the rest. */
  lemma SelectedReadsBack(inp: Input, columns: seq<nat>)
    requires ValidInput(inp) && Assignment(inp, columns)
    ensures ReadsBack(inp.short, SectionsCode(inp.short, Sections(columns)), columns)
  {
    SectionColumns(inp, columns);
    SectionsExpand(columns);
    BandCodebooks(inp, columns);
    forall rest
      ensures ReadSections(inp.short, SectionsCode(inp.short, Sections(columns)) + rest, |columns|)
        == Some((BandTypes(columns), rest))
    {
      SectionsRoundTrip(inp.short, Sections(columns), rest);
    }
  }
}
