/**
 * Properties of the whole merge: where every written record comes from,
 * that base records inside a region never reach the output, that the
 * output stays sorted, that the tail is copied unchanged, and that every
 * written record fits the output header.
 */
module MergeProperties {
  import opened Records
  import opened Regions
  import opened Merge

  /** Records in non-decreasing position order (chromosomes are not compared). */
  predicate Sorted(s: seq<Record>) {
    forall i, j :: 0 <= i < j < |s| ==> s[i].pos <= s[j].pos
  }

  /**
   * The caller's promise on the region list: each `from <= to`, and each
   * region ends at or before the next one starts, so neighbours may share
   * one closed endpoint.
   */
  predicate Ordered(regions: seq<Region>) {
    && (forall i :: 0 <= i < |regions| ==> regions[i].from <= regions[i].to)
    && (forall i, j :: 0 <= i < j < |regions| ==> regions[i].to <= regions[j].from)
  }

  /** Every answered region query yields its records in position order. */
  predicate QueriesSorted(patches: seq<PatchQuery>) {
    forall j :: 0 <= j < |patches| && patches[j].Answered? ==> Sorted(patches[j].records)
  }

  /** `x` is the rewrite of a record some region's query yielded inside `[from, to)`. */
  ghost predicate FromPatch(x: Record, regions: seq<Region>, patches: seq<PatchQuery>, permitted: set<string>)
    requires |patches| == |regions|
  {
    exists j, i :: 0 <= j < |patches| && patches[j].Answered? && 0 <= i < |patches[j].records|
      && regions[j].from <= patches[j].records[i].pos < regions[j].to
      && x == Annotate(patches[j].records[i], permitted)
  }

  /** A position no region covers with its closed bounds `[from, to]`. */
  predicate OutsideAll(pos: nat, regions: seq<Region>) {
    forall j :: 0 <= j < |regions| ==> !(regions[j].from <= pos <= regions[j].to)
  }

  lemma FromPatchShift(x: Record, regions: seq<Region>, patches: seq<PatchQuery>, permitted: set<string>)
    requires |patches| == |regions| > 0
    requires FromPatch(x, regions[1..], patches[1..], permitted)
    ensures FromPatch(x, regions, patches, permitted)
  {
    var j, i :| 0 <= j < |patches[1..]| && patches[1..][j].Answered? && 0 <= i < |patches[1..][j].records|
      && regions[1..][j].from <= patches[1..][j].records[i].pos < regions[1..][j].to
      && x == Annotate(patches[1..][j].records[i], permitted);
    assert patches[j + 1] == patches[1..][j] && regions[j + 1] == regions[1..][j];
  }

  lemma FromPatchHere(x: Record, regions: seq<Region>, patches: seq<PatchQuery>, permitted: set<string>)
    requires |patches| == |regions| > 0 && patches[0].Answered?
    requires x in PatchPhase(patches[0].records, regions[0], permitted)
    ensures FromPatch(x, regions, patches, permitted)
  {
    var ps := patches[0].records;
    var out := PatchPhase(ps, regions[0], permitted);
    var i :| 0 <= i < |out| && out[i] == x;
    assert regions[0].from <= patches[0].records[i].pos < regions[0].to;
  }

  /** Every written record is a base record or a rewritten in-region patch record. */
  lemma {:induction false} Provenance(rest: seq<Record>, regions: seq<Region>, patches: seq<PatchQuery>,
                                      permitted: set<string>)
    requires |patches| == |regions|
    ensures forall x :: x in MergeFrom(rest, regions, patches, permitted).out ==>
      x in rest || FromPatch(x, regions, patches, permitted)
    decreases |regions|
  {
    if |regions| > 0 {
      var reg := regions[0];
      var (kept, left) := SkipPhase(rest, reg);
      if patches[0].Answered? {
        var written := PatchPhase(patches[0].records, reg, permitted);
        var later := MergeFrom(left, regions[1..], patches[1..], permitted);
        Provenance(left, regions[1..], patches[1..], permitted);
        assert MergeFrom(rest, regions, patches, permitted).out == kept + written + later.out;
        SkipWritesBefore(rest, reg);
        forall x | x in kept + written + later.out
          ensures x in rest || FromPatch(x, regions, patches, permitted)
        {
          if x in kept {
            assert x in rest[..|rest| - |left|];
          } else if x in written {
            FromPatchHere(x, regions, patches, permitted);
          } else if x in left {
            assert x in rest;
          } else {
            FromPatchShift(x, regions, patches, permitted);
          }
        }
      } else {
        SkipWritesBefore(rest, reg);
        forall x | x in kept ensures x in rest {
          assert x in rest[..|rest| - |left|];
        }
      }
    }
  }

  /** Records written before the first region lie outside every region. */
  lemma KeptOutside(rest: seq<Record>, regions: seq<Region>, x: Record)
    requires |regions| > 0 && Ordered(regions)
    requires x in SkipPhase(rest, regions[0]).0
    ensures x in rest && OutsideAll(x.pos, regions)
  {
    var left := SkipPhase(rest, regions[0]).1;
    SkipWritesBefore(rest, regions[0]);
    assert x in rest[..|rest| - |left|];
  }

  /** A record left after the first region lies beyond it, and so outside it. */
  lemma LeftOutside(rest: seq<Record>, regions: seq<Region>, x: Record)
    requires |regions| > 0 && Ordered(regions) && Sorted(rest)
    requires x in SkipPhase(rest, regions[0]).1 && OutsideAll(x.pos, regions[1..])
    ensures x in rest && OutsideAll(x.pos, regions)
  {
    var left := SkipPhase(rest, regions[0]).1;
    var k := |rest| - |left|;
    SkipShape(rest, regions[0]);
    var m :| 0 <= m < |left| && left[m] == x;
    assert left[m] == rest[k + m] && left[0] == rest[k];
    forall j | 0 <= j < |regions| ensures !(regions[j].from <= x.pos <= regions[j].to) {
      if j > 0 { assert regions[j] == regions[1..][j - 1]; }
    }
  }

  /** The cursor left by the first region is still sorted. */
  lemma LeftSorted(rest: seq<Record>, reg: Region)
    requires Sorted(rest)
    ensures Sorted(SkipPhase(rest, reg).1)
  {
  }

  /**
   * With a sorted base and ordered regions, no base record inside any
   * region's `[from, to]` is written: every written record is either a
   * rewritten patch record or a base record outside all regions.
   */
  lemma {:induction false} InRegionBaseDropped(rest: seq<Record>, regions: seq<Region>,
                                               patches: seq<PatchQuery>, permitted: set<string>)
    requires |patches| == |regions|
    requires Sorted(rest) && Ordered(regions)
    ensures forall x :: x in MergeFrom(rest, regions, patches, permitted).out ==>
      FromPatch(x, regions, patches, permitted) || (x in rest && OutsideAll(x.pos, regions))
    decreases |regions|
  {
    if |regions| > 0 {
      var reg := regions[0];
      var kept, left := SkipPhase(rest, reg).0, SkipPhase(rest, reg).1;
      if patches[0].Answered? {
        LeftSorted(rest, reg);
        assert Ordered(regions[1..]);
        InRegionBaseDropped(left, regions[1..], patches[1..], permitted);
        MergeStep(rest, regions, patches, permitted);
        InRegionJoin(rest, regions, patches, permitted);
      } else {
        forall x | x in kept ensures x in rest && OutsideAll(x.pos, regions) {
          KeptOutside(rest, regions, x);
        }
      }
    }
  }

  /** The step of `InRegionBaseDropped` for a region whose query was answered. */
  lemma InRegionJoin(rest: seq<Record>, regions: seq<Region>, patches: seq<PatchQuery>, permitted: set<string>)
    requires |patches| == |regions| > 0 && patches[0].Answered?
    requires Sorted(rest) && Ordered(regions)
    requires var left := SkipPhase(rest, regions[0]).1;
      forall x :: x in MergeFrom(left, regions[1..], patches[1..], permitted).out ==>
        FromPatch(x, regions[1..], patches[1..], permitted) || (x in left && OutsideAll(x.pos, regions[1..]))
    ensures var kept, left := SkipPhase(rest, regions[0]).0, SkipPhase(rest, regions[0]).1;
      forall x :: x in kept + PatchPhase(patches[0].records, regions[0], permitted)
                         + MergeFrom(left, regions[1..], patches[1..], permitted).out ==>
        FromPatch(x, regions, patches, permitted) || (x in rest && OutsideAll(x.pos, regions))
  {
    var kept, left := SkipPhase(rest, regions[0]).0, SkipPhase(rest, regions[0]).1;
    var written := PatchPhase(patches[0].records, regions[0], permitted);
    var later := MergeFrom(left, regions[1..], patches[1..], permitted);
    forall x | x in kept + written + later.out
      ensures FromPatch(x, regions, patches, permitted) || (x in rest && OutsideAll(x.pos, regions))
    {
      if x in kept {
        KeptOutside(rest, regions, x);
      } else if x in written {
        FromPatchHere(x, regions, patches, permitted);
      } else if FromPatch(x, regions[1..], patches[1..], permitted) {
        FromPatchShift(x, regions, patches, permitted);
      } else {
        LeftOutside(rest, regions, x);
      }
    }
  }

  /**
   * The converse of `InRegionBaseDropped`: in a completed run, every base
   * record outside all regions is written. No ordering of the base records
   * or of the regions is needed for this direction.
   */
  lemma {:induction false} OutsideBaseKept(rest: seq<Record>, regions: seq<Region>, patches: seq<PatchQuery>,
                                           permitted: set<string>, x: Record)
    requires |patches| == |regions|
    requires MergeFrom(rest, regions, patches, permitted).Completed?
    requires x in rest && OutsideAll(x.pos, regions)
    ensures x in MergeFrom(rest, regions, patches, permitted).out
    decreases |regions|
  {
    if |regions| > 0 {
      var reg := regions[0];
      var kept, left := SkipPhase(rest, reg).0, SkipPhase(rest, reg).1;
      MergeStep(rest, regions, patches, permitted);
      var later := MergeFrom(left, regions[1..], patches[1..], permitted);
      assert MergeFrom(rest, regions, patches, permitted).out
        == kept + PatchPhase(patches[0].records, reg, permitted) + later.out;
      if x in Consumed(rest, reg) {
        ConsumedBelowEnd(rest, reg, x);
        assert !(reg.from <= x.pos <= reg.to);
        SkipWritesBefore(rest, reg);
        assert x in kept;
      } else {
        assert x in left;
        assert OutsideAll(x.pos, regions[1..]) by {
          forall j | 0 <= j < |regions| - 1 ensures !(regions[1..][j].from <= x.pos <= regions[1..][j].to) {
            assert regions[1..][j] == regions[j + 1];
          }
        }
        OutsideBaseKept(left, regions[1..], patches[1..], permitted, x);
      }
    }
  }

  /** Every record the pre-region loop consumes lies at or before the region's end. */
  lemma ConsumedBelowEnd(rest: seq<Record>, reg: Region, x: Record)
    requires x in Consumed(rest, reg)
    ensures x.pos <= reg.to
  {
    SkipShape(rest, reg);
    var c := Consumed(rest, reg);
    var i :| 0 <= i < |c| && c[i] == x;
    assert c[i] == rest[i];
  }

  /** Filtering keeps a sorted sequence sorted. */
  lemma {:induction false} BeforeSorted(s: seq<Record>, from: nat)
    requires Sorted(s)
    ensures Sorted(Before(s, from))
  {
    if |s| > 0 {
      BeforeSorted(s[1..], from);
      var tail := Before(s[1..], from);
      forall y | y in tail ensures s[0].pos <= y.pos {
        var m :| 0 <= m < |s[1..]| && s[1..][m] == y;
        assert s[1..][m] == s[m + 1];
      }
    }
  }

  lemma SortedConcat(a: seq<Record>, b: seq<Record>)
    requires Sorted(a) && Sorted(b)
    requires forall x, y :: x in a && y in b ==> x.pos <= y.pos
    ensures Sorted(a + b)
  {
    var c := a + b;
    forall i, j | 0 <= i < j < |c| ensures c[i].pos <= c[j].pos {
      if i < |a| && j >= |a| {
        assert c[i] in a && c[j] in b;
      }
    }
  }

  lemma SortedPrefix(s: seq<Record>, k: nat)
    requires Sorted(s) && k <= |s|
    ensures Sorted(s[..k])
  {
  }

  /** The base records the pre-region loop writes are sorted and lie before the region. */
  lemma KeptSorted(rest: seq<Record>, reg: Region)
    requires Sorted(rest)
    ensures Sorted(SkipPhase(rest, reg).0)
    ensures forall x :: x in SkipPhase(rest, reg).0 ==> x.pos < reg.from
  {
    var (kept, left) := SkipPhase(rest, reg);
    var consumed := rest[..|rest| - |left|];
    assert kept == Before(consumed, reg.from) by {
      SkipWritesBefore(rest, reg);
    }
    assert Sorted(consumed) by {
      SortedPrefix(rest, |rest| - |left|);
    }
    BeforeSorted(consumed, reg.from);
  }

  /** The patch records the in-region loop writes are sorted and lie in `[from, to)`. */
  lemma WrittenSorted(ps: seq<Record>, reg: Region, permitted: set<string>)
    requires Sorted(ps)
    ensures Sorted(PatchPhase(ps, reg, permitted))
    ensures forall x :: x in PatchPhase(ps, reg, permitted) ==> reg.from <= x.pos < reg.to
  {
    var written := PatchPhase(ps, reg, permitted);
    forall i, j | 0 <= i < j < |written| ensures written[i].pos <= written[j].pos {
      assert written[i].pos == ps[i].pos && written[j].pos == ps[j].pos;
    }
    forall x | x in written ensures reg.from <= x.pos < reg.to {
      var i :| 0 <= i < |written| && written[i] == x;
    }
  }

  /** What the first region writes: sorted, and before the region's end. */
  lemma FirstRegionSorted(rest: seq<Record>, reg: Region, ps: seq<Record>, permitted: set<string>)
    requires Sorted(rest) && Sorted(ps) && reg.from <= reg.to
    ensures Sorted(SkipPhase(rest, reg).0 + PatchPhase(ps, reg, permitted))
    ensures forall x :: x in SkipPhase(rest, reg).0 + PatchPhase(ps, reg, permitted) ==> x.pos < reg.to
  {
    var kept := SkipPhase(rest, reg).0;
    var written := PatchPhase(ps, reg, permitted);
    KeptSorted(rest, reg);
    WrittenSorted(ps, reg, permitted);
    SortedConcat(kept, written);
  }

  /**
   * With a sorted base, sorted query answers and ordered regions, the
   * output is sorted by position.
   */
  lemma {:induction false} OutputSorted(rest: seq<Record>, regions: seq<Region>,
                                        patches: seq<PatchQuery>, permitted: set<string>)
    requires |patches| == |regions|
    requires Sorted(rest) && Ordered(regions) && QueriesSorted(patches)
    ensures Sorted(MergeFrom(rest, regions, patches, permitted).out)
    decreases |regions|
  {
    if |regions| > 0 {
      var reg := regions[0];
      var left := SkipPhase(rest, reg).1;
      if patches[0].Answered? {
        LeftSorted(rest, reg);
        assert Ordered(regions[1..]);
        assert QueriesSorted(patches[1..]) by {
          forall j | 0 <= j < |patches[1..]| && patches[1..][j].Answered?
            ensures Sorted(patches[1..][j].records)
          {
            assert patches[1..][j] == patches[j + 1];
          }
        }
        OutputSorted(left, regions[1..], patches[1..], permitted);
        MergeStep(rest, regions, patches, permitted);
        OutputJoin(rest, regions, patches, permitted);
      } else {
        KeptSorted(rest, reg);
      }
    }
  }

  /** The step of `OutputSorted` for a region whose query was answered. */
  lemma OutputJoin(rest: seq<Record>, regions: seq<Region>, patches: seq<PatchQuery>, permitted: set<string>)
    requires |patches| == |regions| > 0 && patches[0].Answered?
    requires Sorted(rest) && Ordered(regions) && QueriesSorted(patches)
    requires Sorted(MergeFrom(SkipPhase(rest, regions[0]).1, regions[1..], patches[1..], permitted).out)
    ensures Sorted(SkipPhase(rest, regions[0]).0 + PatchPhase(patches[0].records, regions[0], permitted)
                   + MergeFrom(SkipPhase(rest, regions[0]).1, regions[1..], patches[1..], permitted).out)
  {
    var reg := regions[0];
    var kept, left := SkipPhase(rest, reg).0, SkipPhase(rest, reg).1;
    var ps := patches[0].records;
    var written := PatchPhase(ps, reg, permitted);
    var later := MergeFrom(left, regions[1..], patches[1..], permitted);
    FirstRegionSorted(rest, reg, ps, permitted);
    LeftSorted(rest, reg);
    LaterAbove(left, regions, patches, permitted);
    SortedConcat(kept + written, later.out);
  }

  /** Everything written after the first region lies at or beyond its end. */
  lemma LaterAbove(left: seq<Record>, regions: seq<Region>, patches: seq<PatchQuery>, permitted: set<string>)
    requires |patches| == |regions| > 0 && Ordered(regions)
    requires Sorted(left) && (|left| > 0 ==> left[0].pos > regions[0].to)
    ensures forall x :: x in MergeFrom(left, regions[1..], patches[1..], permitted).out ==> x.pos >= regions[0].to
  {
    Provenance(left, regions[1..], patches[1..], permitted);
    forall x | x in MergeFrom(left, regions[1..], patches[1..], permitted).out
      ensures x.pos >= regions[0].to
    {
      if x in left {
        var m :| 0 <= m < |left| && left[m] == x;
      } else {
        LaterPatchAbove(x, regions, patches, permitted);
      }
    }
  }

  /** A patch record of a later region lies at or beyond the first region's end. */
  lemma LaterPatchAbove(x: Record, regions: seq<Region>, patches: seq<PatchQuery>, permitted: set<string>)
    requires |patches| == |regions| > 0 && Ordered(regions)
    requires FromPatch(x, regions[1..], patches[1..], permitted)
    ensures x.pos >= regions[0].to
  {
    var rs, qs := regions[1..], patches[1..];
    var j, i :| 0 <= j < |qs| && qs[j].Answered? && 0 <= i < |qs[j].records|
      && rs[j].from <= qs[j].records[i].pos < rs[j].to
      && x == Annotate(qs[j].records[i], permitted);
    assert rs[j] == regions[j + 1];
  }


  /** The base cursor after every region's pre-region loop has run. */
  function Remaining(rest: seq<Record>, regions: seq<Region>): (r: seq<Record>)
    ensures |r| <= |rest| && r == rest[|rest| - |r|..]
    decreases |regions|
  {
    if |regions| == 0 then rest
    else
      var left := SkipPhase(rest, regions[0]).1;
      var r := Remaining(left, regions[1..]);
      SkipShape(rest, regions[0]);
      assert left[|left| - |r|..] == rest[|rest| - |r|..];
      r
  }

  /** `tail` is the last part of `s`. */
  predicate EndsWith(s: seq<Record>, tail: seq<Record>) {
    |tail| <= |s| && s[|s| - |tail|..] == tail
  }

  lemma EndsWithPrepend(pre: seq<Record>, s: seq<Record>, tail: seq<Record>)
    requires EndsWith(s, tail)
    ensures EndsWith(pre + s, tail)
  {
    assert (pre + s)[|pre + s| - |tail|..] == s[|s| - |tail|..];
  }

  /**
   * After the last region, the buffered record and everything after it are
   * written unchanged and in order, at the very end of a completed run.
   */
  lemma {:induction false} TailPassThrough(rest: seq<Record>, regions: seq<Region>,
                                           patches: seq<PatchQuery>, permitted: set<string>)
    requires |patches| == |regions|
    requires MergeFrom(rest, regions, patches, permitted).Completed?
    ensures EndsWith(MergeFrom(rest, regions, patches, permitted).out, Remaining(rest, regions))
    decreases |regions|
  {
    if |regions| == 0 {
      assert rest[|rest| - |rest|..] == rest;
    } else {
      var (kept, left) := SkipPhase(rest, regions[0]);
      var pre := kept + PatchPhase(patches[0].records, regions[0], permitted);
      var later := MergeFrom(left, regions[1..], patches[1..], permitted);
      TailPassThrough(left, regions[1..], patches[1..], permitted);
      EndsWithPrepend(pre, later.out, Remaining(left, regions[1..]));
    }
  }

  /** The first record of the tail lies beyond the last region's end. */
  lemma {:induction false} TailBeyondLastRegion(rest: seq<Record>, regions: seq<Region>)
    requires |regions| > 0
    ensures |Remaining(rest, regions)| > 0 ==> Remaining(rest, regions)[0].pos > regions[|regions| - 1].to
    decreases |regions|
  {
    var left := SkipPhase(rest, regions[0]).1;
    if |regions| > 1 {
      TailBeyondLastRegion(left, regions[1..]);
      assert regions[1..][|regions| - 2] == regions[|regions| - 1];
    }
  }

  /** With no region the output is the base input, record for record. */
  lemma NoRegionsIsIdentity(base: seq<Record>, permitted: set<string>)
    ensures MergeFrom(base, [], [], permitted) == Completed(base)
  {
  }

  /**
   * The patch bound is half-open: a patch record at a region's end is never
   * written, so a single-locus region `[pos, pos]` takes no patch record.
   */
  lemma PatchUpperBoundExcluded(ps: seq<Record>, reg: Region, permitted: set<string>)
    ensures forall x :: x in PatchPhase(ps, reg, permitted) ==> x.pos != reg.to
    ensures reg.from >= reg.to ==> PatchPhase(ps, reg, permitted) == []
  {
    var written := PatchPhase(ps, reg, permitted);
    forall x | x in written ensures x.pos < reg.to {
      var i :| 0 <= i < |written| && written[i] == x;
    }
  }

  /**
   * If the base records fit the input header, every written record fits the
   * output header, and every record that came from the patch file carries
   * the patch flag.
   */
  lemma OutputConforms(base: seq<Record>, hdrs: seq<HeaderLine>, regions: seq<Region>,
                       patches: seq<PatchQuery>)
    requires |patches| == |regions|
    requires forall x :: x in base ==> Conforms(x, hdrs)
    ensures forall x :: x in MergeFrom(base, regions, patches, PermittedKeys(hdrs)).out ==>
      Conforms(x, OutputHeaders(hdrs))
    ensures forall x :: x in MergeFrom(base, regions, patches, PermittedKeys(hdrs)).out && x !in base ==>
      PatchKey in x.info && x.info[PatchKey] == PatchFlag
  {
    var permitted := PermittedKeys(hdrs);
    Provenance(base, regions, patches, permitted);
    forall x | x in MergeFrom(base, regions, patches, permitted).out
      ensures Conforms(x, OutputHeaders(hdrs))
      ensures x !in base ==> PatchKey in x.info && x.info[PatchKey] == PatchFlag
    {
      if x in base {
        BaseConforms(x, hdrs);
      } else {
        var j, i :| 0 <= j < |patches| && patches[j].Answered? && 0 <= i < |patches[j].records|
          && regions[j].from <= patches[j].records[i].pos < regions[j].to
          && x == Annotate(patches[j].records[i], permitted);
        AnnotatedConforms(patches[j].records[i], hdrs);
      }
    }
  }

  /**
   * Base records at 50, 150 and 250, region `chr1:100-200` whose query
   * yields one record at 120: the record at 150 is dropped and the output
   * is 50, the flagged 120, then 250.
   */
  lemma OneRegionScenario(permitted: set<string>)
    ensures var b50, b150, b250 := Record("chr1", 50, map[]), Record("chr1", 150, map[]), Record("chr1", 250, map[]);
      var p120 := Record("chr1", 120, map[]);
      MergeFrom([b50, b150, b250], [Region("chr1", 100, 200)], [Answered([p120])], permitted)
        == Completed([b50, Annotate(p120, permitted), b250])
  {
    var b50, b150, b250 := Record("chr1", 50, map[]), Record("chr1", 150, map[]), Record("chr1", 250, map[]);
    var p120 := Record("chr1", 120, map[]);
    var base := [b50, b150, b250];
    var reg := Region("chr1", 100, 200);
    assert base[1..] == [b150, b250] && [b150, b250][1..] == [b250];
    assert SkipPhase([b250], reg) == ([], [b250]);
    SkipStep([b150, b250], reg);
    assert [b150, b250][0].pos == 150;
    assert SkipPhase([b150, b250][1..], reg) == ([], [b250]);
    var none: seq<Record> := [];
    assert none + none == none;
    assert SkipPhase([b150, b250], reg) == ([], [b250]);
    SkipStep(base, reg);
    assert SkipPhase(base[1..], reg) == ([], [b250]);
    assert [b50] + none == [b50];
    assert SkipPhase(base, reg) == ([b50], [b250]);
    assert [p120][1..] == [];
    assert PatchPhase([p120], reg, permitted) == [Annotate(p120, permitted)];
  }
}
