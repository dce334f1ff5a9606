/**
 * The `-O` / `--output-format` option: four names, each choosing a file
 * format and (for the compressed ones) a compression level.
 */
module OutputFormat {
  import opened Wrappers

  datatype FileFormat = Vcf | Bcf

  /** The two option fields the `-O` branch writes. */
  datatype Settings = Settings(format: FileFormat, compressionLevel: nat)

  /** The option fields before any `-O` is seen: plain VCF, level 0. */
  const Initial := Settings(Vcf, 0)

  /** Level used by the two compressed choices. */
  const CompressedLevel: nat := 6

  /** The names the option accepts. */
  predicate IsFormatName(ot: string) {
    ot == "vcf" || ot == "vcf.gz" || ot == "bcf" || ot == "ubcf"
  }

  /**
   * One `-O` option as the code handles it: "vcf.gz" and "bcf" set both
   * fields, while "vcf" and "ubcf" set only the format and leave the level
   * as it was; any other text is rejected.
   */
  function ApplyFormatOption(cur: Settings, ot: string): (r: Option<Settings>)
    ensures r.Some? <==> IsFormatName(ot)
    ensures r.Some? ==> (r.value.format == Vcf <==> ot == "vcf" || ot == "vcf.gz")
    ensures r.Some? && (ot == "vcf" || ot == "ubcf") ==> r.value.compressionLevel == cur.compressionLevel
    ensures r.Some? && (ot == "vcf.gz" || ot == "bcf") ==> r.value.compressionLevel == CompressedLevel
  {
    if ot == "vcf" then Some(cur.(format := Vcf))
    else if ot == "vcf.gz" then Some(Settings(Vcf, CompressedLevel))
    else if ot == "bcf" then Some(Settings(Bcf, CompressedLevel))
    else if ot == "ubcf" then Some(cur.(format := Bcf))
    else None
  }

  /**
   * The option as a total function of its text alone: the uncompressed
   * names always mean level 0, whatever an earlier `-O` chose.
   */
  function FormatSetting(ot: string): (r: Option<Settings>)
    ensures r.Some? <==> IsFormatName(ot)
    ensures r.Some? ==> (r.value.format == Vcf <==> ot == "vcf" || ot == "vcf.gz")
    ensures r.Some? ==> (r.value.compressionLevel == CompressedLevel <==> ot == "vcf.gz" || ot == "bcf")
    ensures r.Some? ==> r.value.compressionLevel in {0, CompressedLevel}
  {
    if ot == "vcf" then Some(Settings(Vcf, 0))
    else if ot == "vcf.gz" then Some(Settings(Vcf, CompressedLevel))
    else if ot == "bcf" then Some(Settings(Bcf, CompressedLevel))
    else if ot == "ubcf" then Some(Settings(Bcf, 0))
    else None
  }

  /**
   * The options in command-line order as the code handles them: each `-O`
   * updates the fields left by the previous one, and the first rejected
   * name rejects the whole command line.
   */
  function ParseFormatOptions(opts: seq<string>): (r: Option<Settings>)
    ensures r.Some? <==> forall i :: 0 <= i < |opts| ==> IsFormatName(opts[i])
    ensures r.Some? && |opts| > 0 ==>
      FormatSetting(opts[|opts| - 1]).Some? && r.value.format == FormatSetting(opts[|opts| - 1]).value.format
    ensures r.Some? ==> r.value.compressionLevel in {0, CompressedLevel}
    ensures r.Some? ==> (r.value.compressionLevel == CompressedLevel <==>
      exists i :: 0 <= i < |opts| && (opts[i] == "vcf.gz" || opts[i] == "bcf"))
    decreases |opts|
  {
    if |opts| == 0 then Some(Initial)
    else
      var init := opts[..|opts| - 1];
      assert forall i :: 0 <= i < |init| ==> init[i] == opts[i];
      match ParseFormatOptions(init)
      case None => None
      case Some(cur) => ApplyFormatOption(cur, opts[|opts| - 1])
  }

  /**
   * The options in order with every name meaning its own settings: the
   * last `-O` decides both fields.
   */
  function ParseFormatOptionsFixed(opts: seq<string>): (r: Option<Settings>)
    ensures r.Some? <==> forall i :: 0 <= i < |opts| ==> IsFormatName(opts[i])
    ensures r.Some? && |opts| > 0 ==> r == FormatSetting(opts[|opts| - 1])
    ensures |opts| == 0 ==> r == Some(Initial)
    decreases |opts|
  {
    if |opts| == 0 then Some(Initial)
    else
      match ParseFormatOptionsFixed(opts[..|opts| - 1])
      case None => None
      case Some(_) => FormatSetting(opts[|opts| - 1])
  }

  /** The code and the fixed reading agree on the last option's file format, always. */
  lemma {:induction false} SameFormatEitherWay(opts: seq<string>)
    requires forall i :: 0 <= i < |opts| ==> IsFormatName(opts[i])
    ensures ParseFormatOptions(opts).Some? && ParseFormatOptionsFixed(opts).Some?
    ensures ParseFormatOptions(opts).value.format == ParseFormatOptionsFixed(opts).value.format
  {
  }

  /** The option name that selects given settings. */
  function FormatName(st: Settings): string {
    match st.format
    case Vcf => if st.compressionLevel == 0 then "vcf" else "vcf.gz"
    case Bcf => if st.compressionLevel == 0 then "ubcf" else "bcf"
  }

  /** Every accepted name maps to settings whose name is that option again. */
  lemma FormatNameOfSetting(ot: string)
    requires IsFormatName(ot)
    ensures FormatSetting(ot).Some? && FormatName(FormatSetting(ot).value) == ot
  {
  }

  /** Every reachable setting is selected by exactly its name. */
  lemma FormatSettingOfName(st: Settings)
    requires st.compressionLevel in {0, CompressedLevel}
    ensures FormatSetting(FormatName(st)) == Some(st)
  {
  }

  /** A single `-O` on the initial fields behaves as the total mapping. */
  lemma SingleOptionAgrees(ot: string)
    ensures ApplyFormatOption(Initial, ot) == FormatSetting(ot)
  {
  }

  /**
   * A repeated option leaks the level: `-O bcf -O vcf` asks for plain VCF
   * but keeps compression level 6 from the first option.
   */
  lemma RepeatedOptionKeepsLevel()
    ensures ParseFormatOptions(["bcf", "vcf"]) == Some(Settings(Vcf, 6))
    ensures ParseFormatOptionsFixed(["bcf", "vcf"]) == Some(Settings(Vcf, 0))
  {
    assert ["bcf", "vcf"][..1] == ["bcf"];
    assert ["bcf"][..0] == [];
  }
}
