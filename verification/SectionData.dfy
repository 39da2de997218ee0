/**
 section_data() of the AAC bit stream (section 4.4.2.7 of ISO/IEC 14496-3): each section is a 4-bit
 codebook and a run length sent in run_bits-wide pieces, where an all-ones piece continues the run.
 */
module SectionData {
  import opened Sums
  import opened Wrappers
  import opened BitStrings

  const CB_TOT_ALL: nat := 15

  /** Trellis column to codebook number; 12 is reserved. */
  function OutMap(cb: nat): (r: nat)
    ensures cb < CB_TOT_ALL ==> r < 16 && r != 12
  {
    if cb < 12 then cb else cb + 1
  }

  /** Codebook number to trellis column. */
  function InMap(bandType: nat): nat {
    if bandType < 12 then bandType else if bandType == 12 then 0 else bandType - 1
  }

  /** Columns are the codebooks in order: the maps are inverse, and a reserved codebook counts as column 0. */
  lemma MapsInverse(cb: nat, codebook: nat)
    ensures cb < CB_TOT_ALL ==> InMap(OutMap(cb)) == cb
    ensures codebook < 16 && codebook != 12 ==> InMap(codebook) < CB_TOT_ALL && OutMap(InMap(codebook)) == codebook
    ensures codebook == 12 ==> InMap(codebook) == 0
  {
  }

  lemma OutMapRises(a: nat, b: nat)
    requires a < b < CB_TOT_ALL
    ensures OutMap(a) < OutMap(b) < 16
  {
  }

  function RunBits(short: bool): nat {
    if short then 3 else 5
  }

  function RunEsc(short: bool): nat {
    if short then 7 else 31
  }

  datatype Section = Section(cb: nat, run: nat)

  // ----- writing

  /** put_bits appends n bits, most significant first. */
  function PutBits(pb: Code, n: nat, v: nat): Code {
    pb + Codeword(v, n)
  }

  function RunCode(short: bool, run: nat): Code
    decreases run
  {
    if run >= RunEsc(short)
    then Codeword(RunEsc(short), RunBits(short)) + RunCode(short, run - RunEsc(short))
    else Codeword(run, RunBits(short))
  }

  function SectionCode(short: bool, s: Section): Code {
    Codeword(OutMap(s.cb), 4) + RunCode(short, s.run)
  }

  function SectionsCode(short: bool, secs: seq<Section>): Code {
    if secs == [] then [] else SectionCode(short, secs[0]) + SectionsCode(short, secs[1..])
  }

  function Repeat(cb: nat, n: nat): (r: seq<nat>)
    ensures |r| == n && forall i :: 0 <= i < n ==> r[i] == cb
  {
    if n == 0 then [] else Repeat(cb, n - 1) + [cb]
  }

  /** The codebook of every band, section after section. */
  function Expand(secs: seq<Section>): seq<nat> {
    if secs == [] then [] else Repeat(secs[0].cb, secs[0].run) + Expand(secs[1..])
  }

  function BandTypes(columns: seq<nat>): (r: seq<nat>)
    ensures |r| == |columns|
    ensures forall i :: 0 <= i < |columns| ==> r[i] == OutMap(columns[i])
  {
    seq(|columns|, i requires 0 <= i < |columns| => OutMap(columns[i]))
  }

  // ----- reading back

  function ReadRun(short: bool, bits: Code): Option<(nat, Code)>
    decreases |bits|
  {
    var n := RunBits(short);
    if |bits| < n then None
    else
      var v := Value(bits[..n]);
      if v == RunEsc(short) then
        var more := ReadRun(short, bits[n..]);
        if more.None? then None else Some((v + more.value.0, more.value.1))
      else Some((v, bits[n..]))
  }

  /** Band types of `bands` bands and the bits left over; None for malformed data. */
  function ReadSections(short: bool, bits: Code, bands: nat): Option<(seq<nat>, Code)>
    decreases bands
  {
    if bands == 0 then Some(([], bits))
    else if |bits| < 4 then None
    else
      var codebook := Value(bits[..4]);
      var run := ReadRun(short, bits[4..]);
      if run.None? || run.value.0 == 0 || run.value.0 > bands then None
      else
        var rest := ReadSections(short, run.value.1, bands - run.value.0);
        if rest.None? then None
        else Some((Repeat(codebook, run.value.0) + rest.value.0, rest.value.1))
  }

  // ----- round trip

  lemma Pow2Small()
    ensures Pow2(3) == 8 && Pow2(4) == 16 && Pow2(5) == 32
  {
    assert Pow2(1) == 2 && Pow2(2) == 4;
  }

  lemma {:induction false} ReadRunCode(short: bool, run: nat, rest: Code)
    ensures ReadRun(short, RunCode(short, run) + rest) == Some((run, rest))
    decreases run
  {
    Pow2Small();
    var n := RunBits(short);
    var esc := RunEsc(short);
    var bits := RunCode(short, run) + rest;
    if run >= esc {
      var tail := RunCode(short, run - esc) + rest;
      assert bits == Codeword(esc, n) + tail;
      assert bits[..n] == Codeword(esc, n) && bits[n..] == tail;
      ValueCodeword(esc, n);
      ReadRunCode(short, run - esc, rest);
    } else {
      assert bits[..n] == Codeword(run, n) && bits[n..] == rest;
      ValueCodeword(run, n);
    }
  }

  function Bands(secs: seq<Section>): nat {
    if secs == [] then 0 else secs[0].run + Bands(secs[1..])
  }

  predicate WellFormed(secs: seq<Section>) {
    forall i :: 0 <= i < |secs| ==> secs[i].run > 0 && secs[i].cb < CB_TOT_ALL
  }

  lemma {:induction false} ExpandLength(secs: seq<Section>)
    ensures |Expand(secs)| == Bands(secs)
  {
    if secs != [] {
      ExpandLength(secs[1..]);
    }
  }

  lemma BandTypesSplit(cb: nat, run: nat, more: seq<nat>)
    ensures BandTypes(Repeat(cb, run) + more) == Repeat(OutMap(cb), run) + BandTypes(more)
  {
  }

  lemma ReadOneSection(short: bool, s: Section, tail: Code, bands: nat, after: nat)
    requires 0 < s.run && bands == s.run + after && s.cb < CB_TOT_ALL
    ensures ReadSections(short, SectionCode(short, s) + tail, bands) ==
      var rest := ReadSections(short, tail, after);
      if rest.None? then None else Some((Repeat(OutMap(s.cb), s.run) + rest.value.0, rest.value.1))
  {
    var head := Codeword(OutMap(s.cb), 4);
    var bits := SectionCode(short, s) + tail;
    assert bits == head + (RunCode(short, s.run) + tail);
    assert bits[..4] == head && bits[4..] == RunCode(short, s.run) + tail;
    Pow2Small();
    ValueCodeword(OutMap(s.cb), 4);
    ReadRunCode(short, s.run, tail);
  }

  /** Reading the written sections gives back the band types, escapes and all, and nothing else. */
  lemma {:induction false} SectionsRoundTrip(short: bool, secs: seq<Section>, rest: Code)
    requires WellFormed(secs)
    ensures ReadSections(short, SectionsCode(short, secs) + rest, Bands(secs))
      == Some((BandTypes(Expand(secs)), rest))
  {
    if secs == [] {
      assert SectionsCode(short, secs) + rest == rest;
    } else {
      var s := secs[0];
      var tail := SectionsCode(short, secs[1..]) + rest;
      assert SectionsCode(short, secs) + rest == SectionCode(short, s) + tail;
      ReadOneSection(short, s, tail, Bands(secs), Bands(secs[1..]));
      SectionsRoundTrip(short, secs[1..], rest);
      BandTypesSplit(s.cb, s.run, Expand(secs[1..]));
    }
  }

  // ----- how many bits

  /** Bits the writer spends on a run. */
  function RunLength(short: bool, run: nat): nat {
    RunBits(short) * (run / RunEsc(short) + 1)
  }

  lemma {:induction false} RunCodeLength(short: bool, run: nat)
    ensures |RunCode(short, run)| == RunLength(short, run)
    ensures RunLength(short, run) == if short then 3 * (run / 7 + 1) else 5 * (run / 31 + 1)
  {
    if run >= RunEsc(short) {
      RunCodeLength(short, run - RunEsc(short));
      if short {
        assert run / 7 == (run - 7) / 7 + 1;
      } else {
        assert run / 31 == (run - 31) / 31 + 1;
      }
    }
  }

  lemma {:induction false} SectionsCodeAppend(short: bool, secs: seq<Section>, more: seq<Section>)
    ensures SectionsCode(short, secs + more) == SectionsCode(short, secs) + SectionsCode(short, more)
  {
    if secs == [] {
      assert secs + more == more;
    } else {
      assert (secs + more)[1..] == secs[1..] + more;
      SectionsCodeAppend(short, secs[1..], more);
    }
  }

  lemma {:induction false} ExpandAppend(secs: seq<Section>, more: seq<Section>)
    ensures Expand(secs + more) == Expand(secs) + Expand(more)
  {
    if secs == [] {
      assert secs + more == more;
    } else {
      assert (secs + more)[1..] == secs[1..] + more;
      ExpandAppend(secs[1..], more);
    }
  }
}
