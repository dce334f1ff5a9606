/**
 * The merge as the program runs it: an index into the base records whose
 * element is the buffered record, one loop per phase, and the output
 * growing one record at a time.
 */
module MergeLoop {
  import opened Records
  import opened Regions
  import opened Merge

  /**
   * The rewrite of one patch record in two passes, as the program does it:
   * first collect every key not permitted, then remove them, then set the
   * flag.
   */
  method StripInfo(rec: Record, permitted: set<string>) returns (r: Record)
    ensures r == Annotate(rec, permitted)
  {
    var toRemove: set<string> := {};
    var unseen := rec.info.Keys;
    while unseen != {}
      invariant unseen <= rec.info.Keys
      invariant toRemove == (rec.info.Keys - unseen) - permitted
      decreases unseen
    {
      var k :| k in unseen;
      if k !in permitted {
        toRemove := toRemove + {k};
      }
      unseen := unseen - {k};
    }
    var info := rec.info;
    var pending := toRemove;
    while pending != {}
      invariant pending <= toRemove
      invariant info == rec.info - (toRemove - pending)
      decreases pending
    {
      var k :| k in pending;
      info := info - {k};
      pending := pending - {k};
    }
    assert info == map k | k in rec.info && k in permitted :: rec.info[k];
    r := rec.(info := info[PatchKey := PatchFlag]);
  }

  /**
   * Runs the merge over the base records, the region list and each region's
   * query answer, writing the output header first. It gives the same
   * records, and stops at the same failed query, as the functional model.
   */
  method RunPatch(base: seq<Record>, hdrs: seq<HeaderLine>, regions: seq<Region>, patches: seq<PatchQuery>)
    returns (outHdrs: seq<HeaderLine>, r: Outcome)
    requires |patches| == |regions|
    ensures outHdrs == OutputHeaders(hdrs)
    ensures r == MergeFrom(base, regions, patches, PermittedKeys(hdrs))
  {
    outHdrs := hdrs + [PatchHeader];
    var permitted := {PatchKey};
    for h := 0 to |hdrs|
      invariant permitted == {PatchKey} + InfoIds(hdrs[..h])
    {
      if hdrs[h].kind == "INFO" {
        permitted := permitted + {hdrs[h].id};
      }
      assert InfoIds(hdrs[..h + 1]) == InfoIds(hdrs[..h]) + (if hdrs[h].kind == "INFO" then {hdrs[h].id} else {}) by {
        assert forall m :: 0 <= m < h ==> hdrs[..h + 1][m] == hdrs[..h][m];
      }
    }
    assert hdrs[..|hdrs|] == hdrs;
    r := Run(base, regions, patches, permitted);
  }

  /**
   * The pre-region loop from the buffered record `base[i0]`: returns what it
   * wrote and the index of the new buffered record.
   */
  method SkipLoop(base: seq<Record>, i0: nat, reg: Region) returns (written: seq<Record>, i: nat)
    requires i0 <= |base|
    ensures i0 <= i <= |base|
    ensures (written, base[i..]) == SkipPhase(base[i0..], reg)
  {
    ghost var target := SkipPhase(base[i0..], reg);
    written := [];
    i := i0;
    assert [] + target.0 == target.0;
    while i < |base| && base[i].pos <= reg.to
      invariant i0 <= i <= |base|
      invariant target == (written + SkipPhase(base[i..], reg).0, SkipPhase(base[i..], reg).1)
      decreases |base| - i
    {
      var step := if base[i].pos < reg.from then [base[i]] else [];
      SkipLoopStep(base, i, reg, written, target);
      written := written + step;
      i := i + 1;
    }
    SkipLoopExit(base, i, reg, written, target);
  }

  /** The invariant of the pre-region loop survives one turn. */
  lemma SkipLoopStep(base: seq<Record>, i: nat, reg: Region, written: seq<Record>,
                     target: (seq<Record>, seq<Record>))
    requires i < |base| && base[i].pos <= reg.to
    requires target == (written + SkipPhase(base[i..], reg).0, SkipPhase(base[i..], reg).1)
    ensures target == ((written + (if base[i].pos < reg.from then [base[i]] else [])) + SkipPhase(base[i + 1..], reg).0,
                       SkipPhase(base[i + 1..], reg).1)
  {
    SkipStepAt(base, i, reg);
    ConcatAssoc(written, if base[i].pos < reg.from then [base[i]] else [], SkipPhase(base[i + 1..], reg).0);
  }

  /** When the pre-region loop stops, what it wrote and where it stopped are the phase's result. */
  lemma SkipLoopExit(base: seq<Record>, i: nat, reg: Region, written: seq<Record>,
                     target: (seq<Record>, seq<Record>))
    requires i <= |base| && !(i < |base| && base[i].pos <= reg.to)
    requires target == (written + SkipPhase(base[i..], reg).0, SkipPhase(base[i..], reg).1)
    ensures target == (written, base[i..])
  {
    SkipStop(base[i..], reg);
    assert written + [] == written;
  }

  lemma ConcatAssoc(a: seq<Record>, b: seq<Record>, c: seq<Record>)
    ensures a + (b + c) == (a + b) + c
  {
  }

  /** The in-region loop over one query's records. */
  method PatchLoop(ps: seq<Record>, reg: Region, permitted: set<string>) returns (written: seq<Record>)
    ensures written == PatchPhase(ps, reg, permitted)
  {
    written := [];
    var n := 0;
    while n < |ps| && reg.from <= ps[n].pos < reg.to
      invariant 0 <= n <= |ps|
      invariant PatchPhase(ps, reg, permitted) == written + PatchPhase(ps[n..], reg, permitted)
      decreases |ps| - n
    {
      PatchLoopStep(ps, n, reg, permitted, written);
      var rec := StripInfo(ps[n], permitted);
      written := written + [rec];
      n := n + 1;
    }
    PatchLoopExit(ps, n, reg, permitted, written);
  }

  /** The invariant of the in-region loop survives one turn. */
  lemma PatchLoopStep(ps: seq<Record>, n: nat, reg: Region, permitted: set<string>, written: seq<Record>)
    requires n < |ps| && reg.from <= ps[n].pos < reg.to
    requires PatchPhase(ps, reg, permitted) == written + PatchPhase(ps[n..], reg, permitted)
    ensures PatchPhase(ps, reg, permitted) == (written + [Annotate(ps[n], permitted)]) + PatchPhase(ps[n + 1..], reg, permitted)
  {
    assert ps[n..][1..] == ps[n + 1..];
    ConcatAssoc(written, [Annotate(ps[n], permitted)], PatchPhase(ps[n + 1..], reg, permitted));
  }

  /** When the in-region loop stops, everything it would write has been written. */
  lemma PatchLoopExit(ps: seq<Record>, n: nat, reg: Region, permitted: set<string>, written: seq<Record>)
    requires n <= |ps| && !(n < |ps| && reg.from <= ps[n].pos < reg.to)
    requires PatchPhase(ps, reg, permitted) == written + PatchPhase(ps[n..], reg, permitted)
    ensures PatchPhase(ps, reg, permitted) == written
  {
    assert written + [] == written;
  }


  /** The three loops of the merge, for a fixed set of permitted keys. */
  method Run(base: seq<Record>, regions: seq<Region>, patches: seq<PatchQuery>, permitted: set<string>)
    returns (r: Outcome)
    requires |patches| == |regions|
    ensures r == MergeFrom(base, regions, patches, permitted)
  {
    var out: seq<Record> := [];
    var i: nat := 0;
    var j := 0;
    while j < |regions|
      invariant i <= |base| && j <= |regions|
      invariant Prepend(out, MergeFrom(base[i..], regions[j..], patches[j..], permitted))
        == MergeFrom(base, regions, patches, permitted)
      decreases |regions| - j
    {
      var reg := regions[j];
      ghost var i0 := i;
      var kept;
      kept, i := SkipLoop(base, i, reg);
      match patches[j]
      case QueryFailed =>
        PrependPrepend(out, kept, Aborted([], reg));
        assert kept + [] == kept;
        return Aborted(out + kept, reg);
      case Answered(ps) =>
        var written := PatchLoop(ps, reg, permitted);
        MergeStep(base[i0..], regions[j..], patches[j..], permitted);
        assert regions[j..][1..] == regions[j + 1..];
        assert patches[j..][1..] == patches[j + 1..];
        PrependPrepend(out, kept + written, MergeFrom(base[i..], regions[j + 1..], patches[j + 1..], permitted));
        out := out + (kept + written);
        j := j + 1;
    }
    var tail := CopyTail(base, i);
    return Completed(out + tail);
  }

  /** After the last region: the buffered record and every later one, unchanged. */
  method CopyTail(base: seq<Record>, i0: nat) returns (tail: seq<Record>)
    requires i0 <= |base|
    ensures tail == base[i0..]
  {
    tail := [];
    var i := i0;
    while i < |base|
      invariant i0 <= i <= |base|
      invariant tail == base[i0..i]
      decreases |base| - i
    {
      tail := tail + [base[i]];
      i := i + 1;
    }
  }
}
