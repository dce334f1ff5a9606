/**
 * Chromosomes and the merge. The merge compares base records with a region
 * by position alone, so a record on one chromosome can be consumed, kept or
 * passed through because of a region on another. This module shows that on
 * a two-chromosome input, and defines the merge run one chromosome at a
 * time, in which a base record is written exactly when no region on its own
 * chromosome covers it.
 */
module ContigMerge {
  import opened Records
  import opened Regions
  import opened Merge
  import opened MergeProperties

  /** No region on `x`'s own chromosome covers its position with closed bounds `[from, to]`. */
  predicate OutsideOwn(x: Record, regions: seq<Region>) {
    forall j :: 0 <= j < |regions| && regions[j].chrom == x.chrom ==>
      !(regions[j].from <= x.pos <= regions[j].to)
  }

  /**
   * Base records `chr1:300`, `chr2:60`; regions `chr1:100-200` (query
   * yields nothing) and `chr2:50-80` (query yields `chr2:55`). The record at
   * 300 stops the skip loop of both regions, so `chr2:60`, which lies inside
   * `chr2:50-80`, is copied after the flagged `chr2:55`, and the output is
   * no longer in chromosome-then-position order.
   */
  lemma TwoContigLeak(permitted: set<string>)
    ensures var b300, b60 := Record("chr1", 300, map[]), Record("chr2", 60, map[]);
      var p55 := Record("chr2", 55, map[]);
      var regions := [Region("chr1", 100, 200), Region("chr2", 50, 80)];
      var r := MergeFrom([b300, b60], regions, [Answered([]), Answered([p55])], permitted);
      && r == Completed([Annotate(p55, permitted), b300, b60])
      && b60 in r.out && !OutsideOwn(b60, regions)
  {
    var b300, b60 := Record("chr1", 300, map[]), Record("chr2", 60, map[]);
    var p55 := Record("chr2", 55, map[]);
    var base := [b300, b60];
    var r1, r2 := Region("chr1", 100, 200), Region("chr2", 50, 80);
    var regions := [r1, r2];
    var patches := [Answered([]), Answered([p55])];
    SkipStop(base, r1);
    SkipStop(base, r2);
    assert regions[1..] == [r2] && patches[1..] == [Answered([p55])];
    assert [r2][1..] == [] && [Answered([p55])][1..] == [];
    assert [p55][1..] == [];
    assert PatchPhase([p55], r2, permitted) == [Annotate(p55, permitted)];
    var none: seq<Record> := [];
    assert none + [Annotate(p55, permitted)] + base == [Annotate(p55, permitted), b300, b60];
    assert regions[1] == r2;
  }

  /** The base records on chromosome `c`, in order. */
  function BaseOn(s: seq<Record>, c: string): (r: seq<Record>)
    ensures |r| <= |s|
    ensures forall x :: x in r <==> x in s && x.chrom == c
  {
    if |s| == 0 then []
    else (if s[0].chrom == c then [s[0]] else []) + BaseOn(s[1..], c)
  }

  /** The regions on chromosome `c`, in order, each with its own query. */
  function RegionsOn(regions: seq<Region>, patches: seq<PatchQuery>, c: string): (r: (seq<Region>, seq<PatchQuery>))
    requires |patches| == |regions|
    ensures |r.0| == |r.1| <= |regions|
  {
    if |regions| == 0 then ([], [])
    else
      var more := RegionsOn(regions[1..], patches[1..], c);
      if regions[0].chrom == c then ([regions[0]] + more.0, [patches[0]] + more.1) else more
  }

  /** Every selected region is a region of the list on `c`, paired with its own query. */
  lemma {:induction false} RegionsOnSource(regions: seq<Region>, patches: seq<PatchQuery>, c: string, k: nat)
    requires |patches| == |regions| && k < |RegionsOn(regions, patches, c).0|
    ensures exists j :: (0 <= j < |regions| && regions[j] == RegionsOn(regions, patches, c).0[k]
                         && patches[j] == RegionsOn(regions, patches, c).1[k] && regions[j].chrom == c)
    decreases |regions|
  {
    var rs, qs := regions[1..], patches[1..];
    var more := RegionsOn(rs, qs, c);
    if regions[0].chrom == c && k == 0 {
      assert regions[0] == RegionsOn(regions, patches, c).0[0];
    } else {
      var k' := if regions[0].chrom == c then k - 1 else k;
      assert RegionsOn(regions, patches, c).0[k] == more.0[k'] && RegionsOn(regions, patches, c).1[k] == more.1[k'];
      RegionsOnSource(rs, qs, c, k');
      var j :| 0 <= j < |rs| && rs[j] == more.0[k'] && qs[j] == more.1[k'] && rs[j].chrom == c;
      assert regions[j + 1] == rs[j] && patches[j + 1] == qs[j];
    }
  }

  /** Every region of the list on `c` is selected. */
  lemma {:induction false} RegionsOnCovers(regions: seq<Region>, patches: seq<PatchQuery>, c: string, j: nat)
    requires |patches| == |regions| && j < |regions| && regions[j].chrom == c
    ensures regions[j] in RegionsOn(regions, patches, c).0
    decreases |regions|
  {
    if j > 0 {
      RegionsOnCovers(regions[1..], patches[1..], c, j - 1);
      assert regions[j] == regions[1..][j - 1];
    }
  }

  /**
   * The merge one chromosome at a time, in the order `contigs` gives: each
   * chromosome's base records are merged with that chromosome's regions
   * only. It stops at the first chromosome whose run stops.
   */
  function MergeByContig(contigs: seq<string>, base: seq<Record>, regions: seq<Region>,
                         patches: seq<PatchQuery>, permitted: set<string>): (r: Outcome)
    requires |patches| == |regions|
  {
    if |contigs| == 0 then Completed([])
    else
      var on := RegionsOn(regions, patches, contigs[0]);
      match MergeFrom(BaseOn(base, contigs[0]), on.0, on.1, permitted)
      case Aborted(o, g) => Aborted(o, g)
      case Completed(o) => Prepend(o, MergeByContig(contigs[1..], base, regions, patches, permitted))
  }

  /** What a patch record of a chromosome's own regions is, in terms of the whole list. */
  lemma FromPatchOn(x: Record, regions: seq<Region>, patches: seq<PatchQuery>, c: string, permitted: set<string>)
    requires |patches| == |regions|
    requires FromPatch(x, RegionsOn(regions, patches, c).0, RegionsOn(regions, patches, c).1, permitted)
    ensures FromPatch(x, regions, patches, permitted)
  {
    var rs, qs := RegionsOn(regions, patches, c).0, RegionsOn(regions, patches, c).1;
    var k, i :| 0 <= k < |qs| && qs[k].Answered? && 0 <= i < |qs[k].records|
      && rs[k].from <= qs[k].records[i].pos < rs[k].to
      && x == Annotate(qs[k].records[i], permitted);
    RegionsOnSource(regions, patches, c, k);
    var j :| 0 <= j < |regions| && regions[j] == rs[k] && patches[j] == qs[k] && regions[j].chrom == c;
    assert 0 <= j < |patches| && patches[j].Answered? && 0 <= i < |patches[j].records|
      && regions[j].from <= patches[j].records[i].pos < regions[j].to
      && x == Annotate(patches[j].records[i], permitted);
  }

  /**
   * Merged one chromosome at a time, with each chromosome's base records
   * sorted by position and its regions ordered, no base record inside a
   * region on its own chromosome is written: every written record is a
   * rewritten in-region patch record or a base record outside all regions
   * of its chromosome.
   */
  lemma {:induction false} ContigMergeDropsCovered(contigs: seq<string>, base: seq<Record>, regions: seq<Region>,
                                                   patches: seq<PatchQuery>, permitted: set<string>)
    requires |patches| == |regions|
    requires forall k :: 0 <= k < |contigs| ==>
      Sorted(BaseOn(base, contigs[k])) && Ordered(RegionsOn(regions, patches, contigs[k]).0)
    ensures forall x :: x in MergeByContig(contigs, base, regions, patches, permitted).out ==>
      FromPatch(x, regions, patches, permitted) || (x in base && OutsideOwn(x, regions))
    decreases |contigs|
  {
    if |contigs| > 0 {
      var c := contigs[0];
      var on := RegionsOn(regions, patches, c);
      var own := BaseOn(base, c);
      var first := MergeFrom(own, on.0, on.1, permitted);
      assert Sorted(own) && Ordered(on.0);
      InRegionBaseDropped(own, on.0, on.1, permitted);
      forall x | x in first.out
        ensures FromPatch(x, regions, patches, permitted) || (x in base && OutsideOwn(x, regions))
      {
        if FromPatch(x, on.0, on.1, permitted) {
          FromPatchOn(x, regions, patches, c, permitted);
        } else {
          assert x in own && OutsideAll(x.pos, on.0);
          forall j | 0 <= j < |regions| && regions[j].chrom == x.chrom
            ensures !(regions[j].from <= x.pos <= regions[j].to)
          {
            RegionsOnCovers(regions, patches, c, j);
          }
        }
      }
      if first.Completed? {
        assert forall k :: 0 <= k < |contigs| - 1 ==> contigs[1..][k] == contigs[k + 1];
        ContigMergeDropsCovered(contigs[1..], base, regions, patches, permitted);
      }
    }
  }

  /**
   * The converse of `ContigMergeDropsCovered`: in a completed run, every base
   * record on a listed chromosome that no region of its own chromosome
   * covers is written.
   */
  lemma {:induction false} ContigBaseKept(contigs: seq<string>, base: seq<Record>, regions: seq<Region>,
                                          patches: seq<PatchQuery>, permitted: set<string>, x: Record)
    requires |patches| == |regions|
    requires MergeByContig(contigs, base, regions, patches, permitted).Completed?
    requires x in base && x.chrom in contigs && OutsideOwn(x, regions)
    ensures x in MergeByContig(contigs, base, regions, patches, permitted).out
    decreases |contigs|
  {
    var c := contigs[0];
    var on := RegionsOn(regions, patches, c);
    var first := MergeFrom(BaseOn(base, c), on.0, on.1, permitted);
    var later := MergeByContig(contigs[1..], base, regions, patches, permitted);
    assert first.Completed?;
    assert MergeByContig(contigs, base, regions, patches, permitted).out == first.out + later.out;
    if x.chrom == c {
      assert OutsideAll(x.pos, on.0) by {
        forall k | 0 <= k < |on.0| ensures !(on.0[k].from <= x.pos <= on.0[k].to) {
          RegionsOnSource(regions, patches, c, k);
        }
      }
      OutsideBaseKept(BaseOn(base, c), on.0, on.1, permitted, x);
    } else {
      assert x.chrom in contigs[1..] by {
        var k :| 0 <= k < |contigs| && contigs[k] == x.chrom;
        assert contigs[1..][k - 1] == contigs[k];
      }
      ContigBaseKept(contigs[1..], base, regions, patches, permitted, x);
    }
  }

  /** Filtering a sequence whose records all lie on `c` keeps all of it. */
  lemma {:induction false} BaseOnAll(s: seq<Record>, c: string)
    requires forall i :: 0 <= i < |s| ==> s[i].chrom == c
    ensures BaseOn(s, c) == s
    decreases |s|
  {
    if |s| > 0 {
      BaseOnAll(s[1..], c);
      assert s == [s[0]] + s[1..];
    }
  }

  /** Selecting the regions on `c` from a list whose regions all lie on `c` keeps all of it. */
  lemma {:induction false} RegionsOnAll(regions: seq<Region>, patches: seq<PatchQuery>, c: string)
    requires |patches| == |regions|
    requires forall j :: 0 <= j < |regions| ==> regions[j].chrom == c
    ensures RegionsOn(regions, patches, c) == (regions, patches)
    decreases |regions|
  {
    if |regions| > 0 {
      RegionsOnAll(regions[1..], patches[1..], c);
      assert regions == [regions[0]] + regions[1..] && patches == [patches[0]] + patches[1..];
    }
  }

  /**
   * On input with a single chromosome the merge of the code and the
   * chromosome-by-chromosome merge are the same run.
   */
  lemma SingleContigAgrees(c: string, base: seq<Record>, regions: seq<Region>,
                           patches: seq<PatchQuery>, permitted: set<string>)
    requires |patches| == |regions|
    requires forall i :: 0 <= i < |base| ==> base[i].chrom == c
    requires forall j :: 0 <= j < |regions| ==> regions[j].chrom == c
    ensures MergeByContig([c], base, regions, patches, permitted) == MergeFrom(base, regions, patches, permitted)
  {
    BaseOnAll(base, c);
    RegionsOnAll(regions, patches, c);
    var m := MergeFrom(base, regions, patches, permitted);
    if m.Completed? {
      assert [c][1..] == [];
      assert m.out + [] == m.out;
    }
  }

  /** How the input of `TwoContigLeak` splits into its two chromosomes. */
  lemma TwoContigSelect(permitted: set<string>)
    ensures var b300, b60 := Record("chr1", 300, map[]), Record("chr2", 60, map[]);
      var r1, r2 := Region("chr1", 100, 200), Region("chr2", 50, 80);
      var q1, q2 := Answered([]), Answered([Record("chr2", 55, map[])]);
      && BaseOn([b300, b60], "chr1") == [b300] && BaseOn([b300, b60], "chr2") == [b60]
      && RegionsOn([r1, r2], [q1, q2], "chr1") == ([r1], [q1])
      && RegionsOn([r1, r2], [q1, q2], "chr2") == ([r2], [q2])
  {
    var b300, b60 := Record("chr1", 300, map[]), Record("chr2", 60, map[]);
    var r1, r2 := Region("chr1", 100, 200), Region("chr2", 50, 80);
    var q1, q2 := Answered([]), Answered([Record("chr2", 55, map[])]);
    var none: seq<Record> := [];
    var noRegions: seq<Region>, noQueries: seq<PatchQuery> := [], [];
    assert [b300, b60][1..] == [b60] && [b60][1..] == none;
    assert [r1, r2][1..] == [r2] && [q1, q2][1..] == [q2];
    assert [r2][1..] == noRegions && [q2][1..] == noQueries;
    assert RegionsOn([r2], [q2], "chr1") == (noRegions, noQueries);
    assert RegionsOn([r2], [q2], "chr2") == ([r2] + noRegions, [q2] + noQueries);
    assert [r2] + noRegions == [r2] && [q2] + noQueries == [q2];
    assert [r1] + noRegions == [r1] && [q1] + noQueries == [q1];
  }

  /** The merge of each chromosome of the input of `TwoContigLeak` on its own. */
  lemma TwoContigRuns(permitted: set<string>)
    ensures var p55 := Record("chr2", 55, map[]);
      && MergeFrom([Record("chr1", 300, map[])], [Region("chr1", 100, 200)], [Answered([])], permitted)
           == Completed([Record("chr1", 300, map[])])
      && MergeFrom([Record("chr2", 60, map[])], [Region("chr2", 50, 80)], [Answered([p55])], permitted)
           == Completed([Annotate(p55, permitted)])
  {
    var b300, b60 := Record("chr1", 300, map[]), Record("chr2", 60, map[]);
    var p55 := Record("chr2", 55, map[]);
    var a := Annotate(p55, permitted);
    var r1, r2 := Region("chr1", 100, 200), Region("chr2", 50, 80);
    var q1, q2 := Answered([]), Answered([p55]);
    var none: seq<Record> := [];
    assert MergeFrom([b300], [r1], [q1], permitted) == Completed([b300]) by {
      SkipStop([b300], r1);
      assert [r1][1..] == [] && [q1][1..] == [];
      assert none + none + [b300] == [b300];
    }
    assert MergeFrom([b60], [r2], [q2], permitted) == Completed([a]) by {
      SkipStep([b60], r2);
      SkipStop(none, r2);
      assert [b60][1..] == none;
      assert SkipPhase([b60], r2) == (none, none);
      assert [p55][1..] == [];
      assert PatchPhase([p55], r2, permitted) == [a];
      assert [r2][1..] == [] && [q2][1..] == [];
      assert none + [a] + none == [a];
    }
  }

  /** Two chromosomes whose runs both complete give their outputs one after the other. */
  lemma TwoContigsCompose(c1: string, c2: string, base: seq<Record>, regions: seq<Region>,
                          patches: seq<PatchQuery>, permitted: set<string>,
                          b1: seq<Record>, on1: (seq<Region>, seq<PatchQuery>), o1: seq<Record>,
                          b2: seq<Record>, on2: (seq<Region>, seq<PatchQuery>), o2: seq<Record>)
    requires |patches| == |regions|
    requires BaseOn(base, c1) == b1 && RegionsOn(regions, patches, c1) == on1
    requires BaseOn(base, c2) == b2 && RegionsOn(regions, patches, c2) == on2
    requires |on1.0| == |on1.1| && MergeFrom(b1, on1.0, on1.1, permitted) == Completed(o1)
    requires |on2.0| == |on2.1| && MergeFrom(b2, on2.0, on2.1, permitted) == Completed(o2)
    ensures MergeByContig([c1, c2], base, regions, patches, permitted) == Completed(o1 + o2)
  {
    var noContigs: seq<string> := [];
    assert [c1, c2][1..] == [c2] && [c2][1..] == noContigs;
    var last := MergeByContig([c2], base, regions, patches, permitted);
    assert last == Prepend(o2, MergeByContig(noContigs, base, regions, patches, permitted));
    assert o2 + [] == o2;
    assert MergeByContig([c1, c2], base, regions, patches, permitted) == Prepend(o1, last);
  }

  /**
   * The two-chromosome input of `TwoContigLeak`, merged one chromosome at a
   * time: `chr2:60` is dropped, and each chromosome's records come out
   * together.
   */
  lemma TwoContigFixed(permitted: set<string>)
    ensures var b300, b60 := Record("chr1", 300, map[]), Record("chr2", 60, map[]);
      var p55 := Record("chr2", 55, map[]);
      MergeByContig(["chr1", "chr2"], [b300, b60], [Region("chr1", 100, 200), Region("chr2", 50, 80)],
                    [Answered([]), Answered([p55])], permitted)
        == Completed([b300, Annotate(p55, permitted)])
  {
    var b300, b60 := Record("chr1", 300, map[]), Record("chr2", 60, map[]);
    var p55 := Record("chr2", 55, map[]);
    var a := Annotate(p55, permitted);
    assert [b300] + [a] == [b300, a];
    var base := [b300, b60];
    var r1, r2 := Region("chr1", 100, 200), Region("chr2", 50, 80);
    var q1, q2 := Answered([]), Answered([p55]);
    var regions, patches := [r1, r2], [q1, q2];
    TwoContigSelect(permitted);
    TwoContigRuns(permitted);
    TwoContigsCompose("chr1", "chr2", base, regions, patches, permitted,
                      [b300], ([r1], [q1]), [b300], [b60], ([r2], [q2]), [a]);
  }
}
