/**
 * The region-expression parser: `chrom`, `chrom:pos`, `chrom:beg-` and
 * `chrom:beg-end`, applied to every comma-separated token of the region
 * argument.
 */
module Regions {
  import opened Wrappers
  import opened Text
  import opened Tokens

  /**
   * The three region constructors the parser calls: the whole chromosome,
   * from a position to the end of the chromosome, and an explicit pair of
   * bounds (a single locus is the pair `pos, pos`).
   */
  datatype RegionExpr =
    | WholeChromosome(chrom: string)
    | OpenEnded(chrom: string, from: nat)
    | Bounded(chrom: string, from: nat, to: nat)

  /**
   * The bounds the region library fills in when the caller gives none; their
   * concrete values live inside that library and are kept as parameters.
   */
  datatype Defaults = Defaults(minFrom: nat, maxTo: nat)

  /** A region as the merge engine sees it: a chromosome and two bounds. */
  datatype Region = Region(chrom: string, from: nat, to: nat)

  /** `s.substr(pos, count)`: at most `count` characters from `pos`. */
  function Substr(s: string, pos: nat, count: nat): (r: string)
    requires pos <= |s|
    ensures |r| <= count && r <= s[pos..]
    ensures |r| == count || r == s[pos..]
  {
    if pos + count <= |s| then s[pos..pos + count] else s[pos..]
  }

  /**
   * Parses one region expression. Before the first `:` is the chromosome;
   * the `-` is searched for only after that colon; numbers are read with
   * `atoll`, so text that is not a number reads as 0.
   */
  function ParseRegionExpr(s: string): (e: RegionExpr)
    ensures ':' !in s <==> e.WholeChromosome?
    ensures ':' !in e.chrom && e.chrom <= s
  {
    match Find(s, ':', 0)
    case None =>
      assert ':' !in s by {
        forall j | 0 <= j < |s| ensures s[j] != ':' { }
      }
      WholeChromosome(s)
    case Some(colon) =>
      var chr := s[..colon];
      assert ':' !in chr by {
        forall j | 0 <= j < |chr| ensures chr[j] != ':' { }
      }
      match Find(s, '-', colon + 1)
      case None =>
        var locus := Atoll(s[colon + 1..]);
        Bounded(chr, locus, locus)
      case Some(hyphen) =>
        var sbeg := Substr(s, colon + 1, hyphen - |chr| - 1);
        var send := s[hyphen + 1..];
        if |send| == 0 then OpenEnded(chr, Atoll(sbeg))
        else Bounded(chr, Atoll(sbeg), Atoll(send))
  }

  /** The region a parsed expression denotes once the library fills in missing bounds. */
  function ToRegion(e: RegionExpr, d: Defaults): (r: Region)
    ensures r.chrom == e.chrom
    ensures r.from == (if e.WholeChromosome? then d.minFrom else e.from)
    ensures r.to == (if e.Bounded? then e.to else d.maxTo)
  {
    match e
    case WholeChromosome(chr) => Region(chr, d.minFrom, d.maxTo)
    case OpenEnded(chr, beg) => Region(chr, beg, d.maxTo)
    case Bounded(chr, beg, end) => Region(chr, beg, end)
  }

  /** The region argument: one region per comma-separated token, in input order. */
  function ParseRegionList(s: string, d: Defaults): (r: seq<Region>)
    ensures |r| == Count(s, ',') + 1
    ensures forall i :: 0 <= i < |r| ==> ',' !in r[i].chrom && ':' !in r[i].chrom
    ensures |r| == |Split(s, ',')|
    ensures forall i :: 0 <= i < |r| ==> r[i] == ToRegion(ParseRegionExpr(Split(s, ',')[i]), d)
  {
    var tokens := Split(s, ',');
    SplitCount(s, ',');
    SplitTokensFree(s, ',');
    seq(|tokens|, i requires 0 <= i < |tokens| =>
      var e := ParseRegionExpr(tokens[i]);
      assert ',' !in e.chrom by {
        forall k | 0 <= k < |e.chrom| ensures e.chrom[k] != ',' {
          assert e.chrom[k] == tokens[i][k];
        }
      }
      ToRegion(e, d))
  }

  /** Without a colon the whole text names a chromosome. */
  lemma ParseNoColon(s: string, d: Defaults)
    requires ':' !in s
    ensures ToRegion(ParseRegionExpr(s), d) == Region(s, d.minFrom, d.maxTo)
  {
    FindNone(s, ':', 0);
  }

  /**
   * `chr:locus` with no `-` after the colon is the single locus
   * `[locus, locus]`; a `-` inside `chr` (before the colon) plays no part.
   */
  lemma ParseLocus(chr: string, locus: string)
    requires ':' !in chr && '-' !in locus
    ensures ParseRegionExpr(chr + ":" + locus) == Bounded(chr, Atoll(locus), Atoll(locus))
  {
    var s := chr + ":" + locus;
    var c := |chr|;
    assert s[c] == ':';
    assert forall j :: 0 <= j < c ==> s[j] != ':' by {
      forall j | 0 <= j < c ensures s[j] != ':' { assert s[j] == chr[j]; }
    }
    FindFirst(s, ':', 0, c);
    assert forall j :: c + 1 <= j < |s| ==> s[j] != '-' by {
      forall j | c + 1 <= j < |s| ensures s[j] != '-' { assert s[j] == locus[j - c - 1]; }
    }
    FindNone(s, '-', c + 1);
    assert s[..c] == chr;
    assert s[c + 1..] == locus;
  }

  /** Where the parser's two searches land in `chr:beg-end`. */
  lemma RangeSearches(chr: string, beg: string, end: string)
    requires ':' !in chr && '-' !in beg
    ensures var s := chr + ":" + beg + "-" + end;
      && Find(s, ':', 0) == Some(|chr|)
      && Find(s, '-', |chr| + 1) == Some(|chr| + 1 + |beg|)
  {
    FirstColon(chr, beg, end);
    FirstHyphenAfter(chr, beg, end);
  }

  /** The first colon of `chr:beg-end` is the one after `chr`. */
  lemma FirstColon(chr: string, beg: string, end: string)
    requires ':' !in chr
    ensures Find(chr + ":" + beg + "-" + end, ':', 0) == Some(|chr|)
  {
    var s := chr + ":" + beg + "-" + end;
    forall j | 0 <= j < |chr| ensures s[j] != ':' {
      assert s[j] == chr[j];
    }
    FindFirst(s, ':', 0, |chr|);
  }

  /** Searching after the colon, the first hyphen of `chr:beg-end` follows `beg`. */
  lemma FirstHyphenAfter(chr: string, beg: string, end: string)
    requires '-' !in beg
    ensures Find(chr + ":" + beg + "-" + end, '-', |chr| + 1) == Some(|chr| + 1 + |beg|)
  {
    var s := chr + ":" + beg + "-" + end;
    var c := |chr|;
    forall j | c + 1 <= j < c + 1 + |beg| ensures s[j] != '-' {
      assert s[j] == beg[j - c - 1];
    }
    FindFirst(s, '-', c + 1, c + 1 + |beg|);
  }

  /** The three texts the parser cuts out of `chr:beg-end`. */
  lemma RangePieces(chr: string, beg: string, end: string)
    ensures var s := chr + ":" + beg + "-" + end;
      var c := |chr|;
      var h := c + 1 + |beg|;
      && s[..c] == chr
      && Substr(s, c + 1, h - c - 1) == beg
      && s[h + 1..] == end
  {
    var s := chr + ":" + beg + "-" + end;
    var c := |chr|;
    var h := c + 1 + |beg|;
    assert s[..c] == chr;
    assert s[c + 1..h] == beg;
    assert s[h + 1..] == end;
  }

  /**
   * `chr:beg-end` with the first `-` after the colon between `beg` and `end`:
   * the begin is the text strictly between colon and hyphen; an empty end
   * gives an open-ended region, anything else the pair of bounds.
   */
  lemma ParseRange(chr: string, beg: string, end: string)
    requires ':' !in chr && '-' !in beg
    ensures ParseRegionExpr(chr + ":" + beg + "-" + end) ==
      if |end| == 0 then OpenEnded(chr, Atoll(beg)) else Bounded(chr, Atoll(beg), Atoll(end))
  {
    var s := chr + ":" + beg + "-" + end;
    var c := |chr|;
    var h := c + 1 + |beg|;
    RangeSearches(chr, beg, end);
    RangePieces(chr, beg, end);
    var sbeg := Substr(s, c + 1, h - |s[..c]| - 1);
    assert sbeg == beg;
    assert ParseRegionExpr(s) ==
      if |s[h + 1..]| == 0 then OpenEnded(s[..c], Atoll(sbeg))
      else Bounded(s[..c], Atoll(sbeg), Atoll(s[h + 1..]));
  }

  /** Renders a region expression in the syntax the parser reads. */
  function Show(e: RegionExpr): string {
    match e
    case WholeChromosome(chr) => chr
    case OpenEnded(chr, beg) => chr + ":" + ShowNat(beg) + "-"
    case Bounded(chr, beg, end) => chr + ":" + ShowNat(beg) + "-" + ShowNat(end)
  }

  /** Round trip: every expression whose chromosome has no colon parses back from its rendering. */
  lemma ParseShow(e: RegionExpr)
    requires ':' !in e.chrom
    ensures ParseRegionExpr(Show(e)) == e
  {
    match e
    case WholeChromosome(chr) =>
    case OpenEnded(chr, beg) =>
      NoHyphenInNumber(beg);
      ParseRange(chr, ShowNat(beg), "");
      AtollShowNat(beg);
      assert chr + ":" + ShowNat(beg) + "-" + "" == Show(e);
    case Bounded(chr, beg, end) =>
      NoHyphenInNumber(beg);
      ParseRange(chr, ShowNat(beg), ShowNat(end));
      AtollShowNat(beg);
      AtollShowNat(end);
  }

  lemma NoHyphenInNumber(n: nat)
    ensures '-' !in ShowNat(n)
  {
    NonDigitNotInNumber(n, '-');
  }

  /** A rendered number consists of digits only. */
  lemma NonDigitNotInNumber(n: nat, c: char)
    requires !IsDigit(c)
    ensures c !in ShowNat(n)
  {
    var s := ShowNat(n);
    forall k | 0 <= k < |s| ensures s[k] != c {
      assert IsDigit(s[k]);
    }
  }

  /** The rendering of a comma-free chromosome's expression has no comma. */
  lemma NoCommaInShow(e: RegionExpr)
    requires ',' !in e.chrom
    ensures ',' !in Show(e)
  {
    match e
    case WholeChromosome(chr) =>
    case OpenEnded(chr, beg) =>
      NonDigitNotInNumber(beg, ',');
    case Bounded(chr, beg, end) =>
      NonDigitNotInNumber(beg, ',');
      NonDigitNotInNumber(end, ',');
  }

  /** The renderings of a list of expressions, in order. */
  function ShowAll(es: seq<RegionExpr>): (r: seq<string>)
    ensures |r| == |es|
    ensures forall i :: 0 <= i < |es| ==> r[i] == Show(es[i])
  {
    seq(|es|, i requires 0 <= i < |es| => Show(es[i]))
  }

  /**
   * Round trip for the region argument: the comma-joined renderings of
   * expressions whose chromosomes contain neither comma nor colon parse back
   * to those expressions' regions, in order.
   */
  lemma ParseRegionListShow(es: seq<RegionExpr>, d: Defaults)
    requires |es| > 0
    requires forall i :: 0 <= i < |es| ==> ',' !in es[i].chrom && ':' !in es[i].chrom
    ensures ParseRegionList(Join(ShowAll(es), ','), d) ==
            seq(|es|, i requires 0 <= i < |es| => ToRegion(es[i], d))
  {
    var shown := ShowAll(es);
    forall i | 0 <= i < |shown| ensures ',' !in shown[i] {
      NoCommaInShow(es[i]);
    }
    SplitJoin(shown, ',');
    forall i | 0 <= i < |es| ensures ParseRegionExpr(shown[i]) == es[i] {
      ParseShow(es[i]);
    }
  }

  /**
   * Non-numeric text silently reads as 0 instead of being rejected:
   * `chr1:abc-200` is the region `[0, 200]` on `chr1`.
   */
  lemma JunkBeginReadsAsZero(chr: string, junk: string, end: nat)
    requires ':' !in chr && '-' !in junk
    requires |junk| == 0 || !IsDigit(junk[0])
    ensures ParseRegionExpr(chr + ":" + junk + "-" + ShowNat(end)) == Bounded(chr, 0, end)
  {
    ParseRange(chr, junk, ShowNat(end));
    AtollShowNat(end);
  }
}
