/**
 * The region-bounded merge: one forward cursor over the base records with a
 * single buffered record, and for every region
 *   1. base records up to the region's end are consumed, and those before
 *      its start are written unchanged;
 *   2. the patch records the region query yields are written, rewritten,
 *      for as long as they lie in `[from, to)`;
 * after the last region the buffered record and the rest of the base are
 * written unchanged.
 *
 * The cursor is the sequence of base records not yet consumed; its head is
 * the buffered record, and an empty cursor is a reader at end of input.
 */
module Merge {
  import opened Records
  import opened Regions

  /**
   * What the region query of the patch file gave: the records it yields in
   * order (a read fault ends them just as end of input does), or a query
   * that could not be opened or bound to the region.
   */
  datatype PatchQuery = Answered(records: seq<Record>) | QueryFailed

  /**
   * The records written, and whether the run finished or stopped at the
   * region whose query failed (the records written before that stay).
   */
  datatype Outcome = Completed(out: seq<Record>) | Aborted(out: seq<Record>, failed: Region)

  /** Records written before the rest of the run. */
  function Prepend(pre: seq<Record>, r: Outcome): (p: Outcome)
    ensures p.out == pre + r.out
    ensures p.Completed? == r.Completed?
    ensures p.Aborted? ==> p.failed == r.failed
  {
    match r
    case Completed(o) => Completed(pre + o)
    case Aborted(o, g) => Aborted(pre + o, g)
  }

  /** Reference filter: the records strictly before `from`, in order. */
  function Before(s: seq<Record>, from: nat): (r: seq<Record>)
    ensures |r| <= |s|
    ensures forall x :: x in r <==> x in s && x.pos < from
  {
    if |s| == 0 then []
    else (if s[0].pos < from then [s[0]] else []) + Before(s[1..], from)
  }

  /** Filtering a sequence that starts with `a`. */
  lemma BeforeCons(a: Record, s: seq<Record>, from: nat)
    ensures Before([a] + s, from) == (if a.pos < from then [a] else []) + Before(s, from)
  {
    assert ([a] + s)[1..] == s;
  }

  /**
   * The pre-region loop: while the buffered record is at or before the
   * region's end, write it if it lies before the region's start, then read
   * the next one. Returns what was written and the cursor left over.
   */
  function SkipPhase(rest: seq<Record>, reg: Region): (r: (seq<Record>, seq<Record>))
    ensures |r.1| <= |rest|
    ensures |r.1| > 0 ==> r.1[0].pos > reg.to
  {
    if |rest| == 0 || rest[0].pos > reg.to then ([], rest)
    else
      var (written, left) := SkipPhase(rest[1..], reg);
      ((if rest[0].pos < reg.from then [rest[0]] else []) + written, left)
  }

  /**
   * The pre-region loop leaves a suffix of the cursor, and every record it
   * consumed lies at or before the region's end.
   */
  lemma SkipShape(rest: seq<Record>, reg: Region)
    ensures SkipPhase(rest, reg).1 == rest[|rest| - |SkipPhase(rest, reg).1|..]
    ensures forall i :: 0 <= i < |rest| - |SkipPhase(rest, reg).1| ==> rest[i].pos <= reg.to
  {
    SkipSuffix(rest, reg);
    SkipConsumedBound(rest, reg);
  }

  lemma {:induction false} SkipSuffix(rest: seq<Record>, reg: Region)
    ensures SkipPhase(rest, reg).1 == rest[|rest| - |SkipPhase(rest, reg).1|..]
    decreases |rest|
  {
    if |rest| > 0 && rest[0].pos <= reg.to {
      var tail := rest[1..];
      var left := SkipPhase(tail, reg).1;
      assert SkipPhase(rest, reg).1 == left;
      SkipSuffix(tail, reg);
      assert tail[|tail| - |left|..] == rest[|rest| - |left|..];
    }
  }

  lemma {:induction false} SkipConsumedBound(rest: seq<Record>, reg: Region)
    ensures forall i :: 0 <= i < |rest| - |SkipPhase(rest, reg).1| ==> rest[i].pos <= reg.to
    decreases |rest|
  {
    if |rest| > 0 && rest[0].pos <= reg.to {
      var tail := rest[1..];
      var left := SkipPhase(tail, reg).1;
      assert SkipPhase(rest, reg).1 == left;
      SkipConsumedBound(tail, reg);
      forall i | 0 < i < |rest| - |left| ensures rest[i].pos <= reg.to {
        assert rest[i] == tail[i - 1];
      }
    }
  }

  /** The base records the pre-region loop consumed, buffered record included. */
  function Consumed(rest: seq<Record>, reg: Region): (c: seq<Record>)
    ensures rest == c + SkipPhase(rest, reg).1
  {
    SkipShape(rest, reg);
    rest[..|rest| - |SkipPhase(rest, reg).1|]
  }

  /**
   * The pre-region loop writes exactly the records it consumed that lie
   * before the region's start, unchanged and in order; the ones in
   * `[from, to]` are dropped.
   */
  lemma {:induction false} SkipWritesBefore(rest: seq<Record>, reg: Region)
    ensures SkipPhase(rest, reg).0 == Before(Consumed(rest, reg), reg.from)
    decreases |rest|
  {
    if |rest| > 0 && rest[0].pos <= reg.to {
      SkipStep(rest, reg);
      SkipWritesBefore(rest[1..], reg);
      ConsumedStep(rest, reg);
      BeforeCons(rest[0], Consumed(rest[1..], reg), reg.from);
    }
  }

  /** One turn of the pre-region loop consumes the buffered record. */
  lemma ConsumedStep(rest: seq<Record>, reg: Region)
    requires |rest| > 0 && rest[0].pos <= reg.to
    ensures Consumed(rest, reg) == [rest[0]] + Consumed(rest[1..], reg)
  {
    SkipStep(rest, reg);
    var c, c1 := Consumed(rest, reg), Consumed(rest[1..], reg);
    assert rest == c + SkipPhase(rest[1..], reg).1;
    assert rest[1..] == c1 + SkipPhase(rest[1..], reg).1;
    assert |c| == |c1| + 1;
    forall i | 0 <= i < |c| ensures c[i] == ([rest[0]] + c1)[i] {
      if i > 0 {
        assert c[i] == rest[i] == rest[1..][i - 1];
      }
    }
  }

  /**
   * The in-region loop: patch records are rewritten and written while they
   * lie in `[from, to)`; the first record outside ends the loop.
   */
  function PatchPhase(ps: seq<Record>, reg: Region, permitted: set<string>): (r: seq<Record>)
    ensures |r| <= |ps|
    ensures forall i :: 0 <= i < |r| ==> reg.from <= ps[i].pos < reg.to && r[i] == Annotate(ps[i], permitted)
    ensures |r| < |ps| ==> !(reg.from <= ps[|r|].pos < reg.to)
  {
    if |ps| == 0 || !(reg.from <= ps[0].pos < reg.to) then []
    else [Annotate(ps[0], permitted)] + PatchPhase(ps[1..], reg, permitted)
  }

  /**
   * The whole merge from a cursor position: every region in turn, then the
   * tail. It stops early exactly when some region query failed, and then
   * names the first such region.
   */
  function MergeFrom(rest: seq<Record>, regions: seq<Region>, patches: seq<PatchQuery>,
                     permitted: set<string>): (r: Outcome)
    requires |patches| == |regions|
    ensures r.Completed? <==> forall j :: 0 <= j < |patches| ==> patches[j].Answered?
    ensures r.Aborted? ==> exists j :: 0 <= j < |patches| && patches[j].QueryFailed? && r.failed == regions[j]
                                   && forall k :: 0 <= k < j ==> patches[k].Answered?
    decreases |regions|
  {
    if |regions| == 0 then Completed(rest)
    else
      var reg := regions[0];
      var (kept, left) := SkipPhase(rest, reg);
      match patches[0]
      case QueryFailed => Aborted(kept, reg)
      case Answered(ps) =>
        var r := Prepend(kept + PatchPhase(ps, reg, permitted),
                         MergeFrom(left, regions[1..], patches[1..], permitted));
        FirstFailureShift(regions, patches, r);
        r
  }

  /**
   * When the first query was answered, the first failure among the later
   * queries is the first failure of all of them.
   */
  lemma FirstFailureShift(regions: seq<Region>, patches: seq<PatchQuery>, r: Outcome)
    requires |patches| == |regions| > 0 && patches[0].Answered?
    requires r.Aborted? ==> exists j :: 0 <= j < |patches| - 1 && patches[1..][j].QueryFailed? && r.failed == regions[1..][j]
                                 && forall k :: 0 <= k < j ==> patches[1..][k].Answered?
    ensures r.Aborted? ==> exists j :: 0 <= j < |patches| && patches[j].QueryFailed? && r.failed == regions[j]
                                && forall k :: 0 <= k < j ==> patches[k].Answered?
  {
    if r.Aborted? {
      var j :| 0 <= j < |patches| - 1 && patches[1..][j].QueryFailed? && r.failed == regions[1..][j]
               && forall k :: 0 <= k < j ==> patches[1..][k].Answered?;
      assert forall k :: 0 <= k < j + 1 ==> patches[k].Answered? by {
        forall k | 0 <= k < j + 1 ensures patches[k].Answered? {
          if k > 0 { assert patches[k] == patches[1..][k - 1]; }
        }
      }
    }
  }

  /** One turn of the pre-region loop on a record at or before the region's end. */
  lemma SkipStep(rest: seq<Record>, reg: Region)
    requires |rest| > 0 && rest[0].pos <= reg.to
    ensures SkipPhase(rest, reg) ==
      ((if rest[0].pos < reg.from then [rest[0]] else []) + SkipPhase(rest[1..], reg).0, SkipPhase(rest[1..], reg).1)
  {
  }

  /** `SkipStep` on the cursor that starts at index `i`. */
  lemma SkipStepAt(base: seq<Record>, i: nat, reg: Region)
    requires i < |base| && base[i].pos <= reg.to
    ensures SkipPhase(base[i..], reg) ==
      ((if base[i].pos < reg.from then [base[i]] else []) + SkipPhase(base[i + 1..], reg).0, SkipPhase(base[i + 1..], reg).1)
  {
    SkipStep(base[i..], reg);
    assert base[i..][1..] == base[i + 1..];
  }

  /** The pre-region loop ends at end of input or at a record beyond the region. */
  lemma SkipStop(rest: seq<Record>, reg: Region)
    requires |rest| == 0 || rest[0].pos > reg.to
    ensures SkipPhase(rest, reg) == ([], rest)
  {
  }

  /** One region of the merge with an answered query, unfolded. */
  lemma MergeStep(rest: seq<Record>, regions: seq<Region>, patches: seq<PatchQuery>, permitted: set<string>)
    requires |patches| == |regions| > 0 && patches[0].Answered?
    ensures var (kept, left) := SkipPhase(rest, regions[0]);
      MergeFrom(rest, regions, patches, permitted)
        == Prepend(kept + PatchPhase(patches[0].records, regions[0], permitted),
                   MergeFrom(left, regions[1..], patches[1..], permitted))
  {
  }

  lemma PrependPrepend(a: seq<Record>, b: seq<Record>, r: Outcome)
    ensures Prepend(a, Prepend(b, r)) == Prepend(a + b, r)
  {
    assert a + (b + r.out) == (a + b) + r.out;
  }
}
