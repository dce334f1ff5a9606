# vcf-patch in Dafny

`vcf-patch` replaces the records of a sorted variant file (the *base*) inside
a list of genomic regions with the records a second, indexed file (the
*patch*) holds for the same regions. Every record taken from the patch loses
the INFO fields the base header does not declare and gains the
`PATCH_VARIANT` flag. The output header is the base header plus one INFO line
for that flag.

This project models the pure core of `main.cpp`:

- `split_string_to_vector`, the comma splitter for the region argument
  (module `Tokens`, file `tokens.dfy`), with the `find` and `atoll` it relies
  on (module `Text`, file `text.dfy`);
- `string_to_region`, the region-expression parser (module `Regions`,
  file `regions.dfy`);
- the `-O` / `--output-format` branch of `prog_args::parse` (module
  `OutputFormat`, file `format.dfy`);
- the output header, the permitted INFO keys and the per-record rewrite
  (module `Records`, file `records.dfy`);
- the merge in `main`: the loop before each region, the loop inside it, and
  the tail copy. It is written twice: as a recursive function over the
  remaining base records (module `Merge`, file `merge.dfy`), and as the
  program's own loops over an index into the base records (module
  `MergeLoop`, file `merge_loop.dfy`), proved equal to the function. The
  properties of the whole run are in module `MergeProperties`
  (file `merge_props.dfy`);
- what the merge does with more than one chromosome, and a merge run one
  chromosome at a time (module `ContigMerge`, file `contigs.dfy`).

Streams are sequences. The base reader is the sequence of base records, and
the record it holds is the head of what remains. Each region's patch query
is an input: either the sequence of records it yields, or `QueryFailed` when
the query cannot be opened or bound to the region. The library's default
bounds for `genomic_region(chr)` and `genomic_region(chr, beg)` are not
visible, so they are a parameter `Defaults(minFrom, maxTo)`.

The code does not reject non-numeric region text, does not check the output
header for a duplicate `PATCH_VARIANT`, and does not validate region order;
the model follows the code:

- Text that is not a number reads as 0 (`atoll`). The code does not reject
  it (`Regions.JunkBeginReadsAsZero`).
- A patch record at a region's end is never written, because the bound is
  `pos < to` (`MergeProperties.PatchUpperBoundExcluded`).
- Base records are written unchanged. A base record that already carries
  `PATCH_VARIANT` keeps it.
- No duplicate-key check is made on the output header, and the region list
  is not validated. The properties that need sorted input and ordered
  regions take them as preconditions (`MergeProperties.Ordered`,
  `MergeProperties.Sorted`).
- The merge compares base records with a region by position only; the
  chromosome is never compared (main.cpp:228, 230). `MergeProperties.Sorted`
  and `MergeProperties.Ordered` therefore order by position alone, and the
  properties that assume them (`InRegionBaseDropped`, `OutputSorted`) are
  statements about input on a single chromosome. A file sorted by
  chromosome and then position need not meet them once it holds two
  chromosomes, and on such a file the code can write a base record that
  lies inside a region of its own chromosome (see "Findings").
- The region argument always yields at least one region: an empty
  argument is the single token `""`, the whole-chromosome region `""` with
  the default bounds. Because positions alone are compared, that region
  consumes every base record between the default bounds on any chromosome.
  `MergeProperties.NoRegionsIsIdentity` (no region at all) is a property of
  the merge that the program never reaches.

## Model

| member | source | states |
|---|---|---|
| Text.Find | main.cpp:40 | the index found is the first occurrence of the character at or after the start; none is found exactly when no occurrence exists there |
| Text.DigitRun | main.cpp:44 | the leading run of decimal digits: every character in it is a digit, and the character after it is not |
| Text.Atoll | main.cpp:44 | text that does not start with a digit reads as 0 |
| Text.AtollDigitsThen | main.cpp:44 | a digit string followed by any text that does not start with a digit reads as the value of the digits alone |
| Text.AtollShowNat | main.cpp:44 | reading back the decimal rendering of a number gives that number |
| Tokens.Split | main.cpp:14-28 | splitting always yields at least one token |
| Tokens.SplitCount | main.cpp:14-28 | there is exactly one more token than there are delimiters in the input |
| Tokens.SplitTokensFree | main.cpp:14-28 | no token contains the delimiter |
| Tokens.JoinSplit | main.cpp:14-28 | joining the tokens with the delimiter gives back the input |
| Tokens.SplitJoin | main.cpp:14-28 | a non-empty list of delimiter-free tokens, joined, splits back into the same list |
| Tokens.SplitString | main.cpp:14-28 | the loop that walks the input from delimiter to delimiter yields the tokens of the recursive definition |
| Regions.Substr | main.cpp:49 | `substr(pos, count)` takes at most `count` characters from `pos`, and exactly `count` unless the text ends first |
| Regions.ParseRegionExpr | main.cpp:30-62 | an expression is a whole chromosome exactly when it has no colon; the chromosome is a prefix of the text with no colon in it |
| Regions.ToRegion | main.cpp:35-57 | a whole chromosome takes both default bounds, an open-ended expression the default end, and a locus or pair its own bounds |
| Regions.ParseRegionList | main.cpp:164-167 | one region per comma-separated token, so one more than the number of commas; the i-th region is the parse of the i-th token with the default bounds filled in, and no chromosome contains a comma or a colon |
| Regions.ParseRegionListShow | main.cpp:164-167 | a non-empty list of expressions whose chromosomes contain neither comma nor colon, rendered and joined with commas, parses back to those expressions' regions in order |
| Regions.ParseNoColon | main.cpp:32-36 | text without a colon is a whole-chromosome region named by the entire text |
| Regions.ParseLocus | main.cpp:39-45 | `chr:locus` with no hyphen after the colon is the single locus `[locus, locus]` on `chr`; a hyphen inside `chr` plays no part |
| Regions.RangeSearches | main.cpp:32-40 | in `chr:beg-end` the first colon follows `chr`, and the first hyphen after it follows `beg` |
| Regions.ParseRange | main.cpp:49-57 | `chr:beg-end` takes its begin from the text strictly between colon and hyphen; an empty end gives an open-ended region, any other end the pair of bounds |
| Regions.ParseShow | main.cpp:30-62 | every expression whose chromosome has no colon parses back from its rendering |
| Regions.JunkBeginReadsAsZero | main.cpp:57 | a begin that is not a number silently reads as 0, so `chr1:abc-200` is `[0, 200]` |
| OutputFormat.ApplyFormatOption | main.cpp:124-152 | exactly the four names are accepted; `vcf` and `vcf.gz` choose VCF; `vcf.gz` and `bcf` set level 6, while `vcf` and `ubcf` keep the level they found |
| OutputFormat.FormatSetting | main.cpp:127-150 | the four names map to (VCF, 0), (VCF, 6), (BCF, 6) and (BCF, 0); any other text is rejected |
| OutputFormat.ParseFormatOptions | main.cpp:113-152 | a command line is accepted exactly when every `-O` name is valid; the last one decides the format; the level is 6 exactly when some `-O` named `vcf.gz` or `bcf`, and 0 otherwise |
| OutputFormat.ParseFormatOptionsFixed | main.cpp:75-76 | with no `-O` the fields keep their initial values (VCF, 0); otherwise the last name alone decides both fields |
| OutputFormat.FormatNameOfSetting | main.cpp:127-150 | each accepted name maps to settings whose name is that option again |
| OutputFormat.FormatSettingOfName | main.cpp:127-150 | each reachable setting is selected by exactly its name |
| OutputFormat.SingleOptionAgrees | main.cpp:124-152 | a single `-O` on the initial fields gives the settings of the total mapping |
| OutputFormat.RepeatedOptionKeepsLevel | main.cpp:128-131 | `-O bcf -O vcf` gives VCF at level 6 as written, and VCF at level 0 when each name means its own settings |
| Records.PermittedKeys | main.cpp:212-214 | a key is permitted exactly when it is `PATCH_VARIANT` or the id of an INFO line of the input header |
| Records.OutputHeaders | main.cpp:209-210 | the output header keeps every input line in order and appends the flag's INFO line; the INFO ids it declares are exactly the permitted keys |
| Records.Annotate | main.cpp:253-263 | a rewritten record keeps chromosome and position; its keys are the permitted keys it had plus the flag; the flag is set to the empty value; every other kept field keeps its value |
| Records.AnnotatedConforms | main.cpp:253-263 | every rewritten record declares only keys of the output header, and carries the flag |
| Records.AnnotateIdempotent | main.cpp:253-263 | rewriting a record twice is rewriting it once |
| Records.BaseConforms | main.cpp:209-210 | a record that fits the input header fits the output header |
| Merge.SkipPhase | main.cpp:228-236 | the loop before a region leaves a cursor no longer than before, and that cursor is empty or starts beyond the region's end |
| Merge.SkipShape | main.cpp:228-236 | the cursor left is a suffix of the old one, and every record consumed lies at or before the region's end |
| Merge.SkipWritesBefore | main.cpp:228-236 | of the records consumed, exactly those before the region's start are written, unchanged and in order |
| Merge.PatchPhase | main.cpp:247-267 | the records written are the rewrites of the longest prefix of the query's records with `from <= pos < to`; the record after that prefix is outside the bound |
| Merge.MergeFrom | main.cpp:220-279 | the run completes exactly when every region query was answered; otherwise it stops at the first region whose query failed |
| MergeProperties.Provenance | main.cpp:220-279 | every written record is a base record or the rewrite of a patch record that lies in its region's `[from, to)` |
| MergeProperties.InRegionBaseDropped | main.cpp:228-236 | with sorted base records and ordered regions, no base record inside any region's `[from, to]` is written |
| MergeProperties.OutsideBaseKept | main.cpp:220-279 | in a completed run every base record outside all regions is written, whatever the order of base records and regions |
| MergeProperties.KeptSorted | main.cpp:228-236 | the base records written before a region are sorted and lie before its start |
| MergeProperties.WrittenSorted | main.cpp:248 | the patch records written for a region are sorted and lie in `[from, to)` |
| MergeProperties.OutputSorted | main.cpp:220-279 | with sorted base records, sorted query answers and ordered regions, the output is sorted by position |
| MergeProperties.Remaining | main.cpp:273-278 | what is left of the base records after the last region is a suffix of them |
| MergeProperties.TailPassThrough | main.cpp:273-278 | a completed run ends with the buffered base record and all later ones, unchanged and in order |
| MergeProperties.TailBeyondLastRegion | main.cpp:228 | the first record of the tail lies beyond the last region's end |
| MergeProperties.NoRegionsIsIdentity | main.cpp:222-224 | with no region the output is the base records exactly |
| MergeProperties.PatchUpperBoundExcluded | main.cpp:248 | no written patch record sits at its region's end, and a region with `from >= to`, a single locus included, takes no patch record |
| MergeProperties.OutputConforms | main.cpp:212-263 | if the base records fit the input header, every written record fits the output header, and every record not from the base carries the flag |
| MergeProperties.OneRegionScenario | main.cpp:220-279 | base records at 50, 150 and 250 with region `chr1:100-200` answered by a record at 120 give 50, the flagged 120, then 250 |
| ContigMerge.TwoContigLeak | main.cpp:228-248 | with base records `chr1:300`, `chr2:60` and regions `chr1:100-200`, `chr2:50-80`, the run writes `chr2:60` although it lies inside `chr2:50-80`, and writes it after the flagged `chr2:55` |
| ContigMerge.ContigMergeDropsCovered | main.cpp:220-279 | merged one chromosome at a time, with each chromosome's records sorted and its regions ordered, every written record is a rewritten in-region patch record or a base record outside every region of its own chromosome |
| ContigMerge.ContigBaseKept | main.cpp:220-279 | merged one chromosome at a time, a completed run writes every base record on a listed chromosome that no region of its own chromosome covers |
| ContigMerge.SingleContigAgrees | main.cpp:220-279 | on input with one chromosome the per-chromosome merge is the merge of the code |
| ContigMerge.TwoContigFixed | main.cpp:220-279 | the input of `TwoContigLeak`, merged one chromosome at a time, gives `chr1:300` then the flagged `chr2:55`, and `chr2:60` is dropped |
| MergeLoop.StripInfo | main.cpp:253-263 | collecting the keys to remove, removing them and setting the flag gives the rewrite `Records.Annotate` describes |
| MergeLoop.SkipLoop | main.cpp:228-236 | the loop before a region writes what `Merge.SkipPhase` writes and stops at the cursor it leaves |
| MergeLoop.PatchLoop | main.cpp:247-267 | the loop inside a region writes what `Merge.PatchPhase` writes |
| MergeLoop.CopyTail | main.cpp:273-278 | the tail loop writes the buffered record and every later one, in order |
| MergeLoop.Run | main.cpp:220-279 | the three loops write the records of `Merge.MergeFrom` and stop at the same failed query |
| MergeLoop.RunPatch | main.cpp:209-214 | the header and permitted keys built by the program are `Records.OutputHeaders` and `Records.PermittedKeys`, and the run is `Merge.MergeFrom` over them |

## Left out

- Command-line handling around the options: `getopt_long`, `-h`, `-o`, usage text and the argument-count checks (main.cpp:99-121, 158-187). They are glue code with no property beyond the option mapping.
- All reader and writer behaviour of the variant library: opening files, header text, samples, the writer's compression, and the index query itself (main.cpp:205-218, 241-242). A query is an input: its records, or `QueryFailed`.
- Write failures (main.cpp:232-233, 265-266, 275-276). These are I/O. The model's output is what is written when every write succeeds.
- Read faults. A fault on the base reader ends the base stream like end of input. Only the exit code at main.cpp:281 tells the two apart, and the exit code is left out. A fault on the patch reader makes `in_patch >> rec_patch` false, so it also ends the region like end of input. The `bad()` test at main.cpp:250 only runs after a successful read, so the model has no separate path for it.
- Error messages and `errno` (main.cpp:207, 218, 244). A failed query gives `Aborted` with the records written so far and the region. The message text is not modelled.
- The library's default bounds for whole-chromosome and open-ended regions. They are the parameter `Defaults`.
- `default_compression_level = 3` (main.cpp:67) is never read by the code. The model's initial level is the field initialiser 0 (main.cpp:76).
- Text.Atoll: reads only a leading run of decimal digits. Leading whitespace, a sign, overflow, and the cast of a negative value to `uint64_t` are not modelled, so `-5` and ` 5` read as 0 here.
- Regions.ParseRegionExpr: a region string is a Dafny string. An embedded NUL, which would cut a C string short before `split_string_to_vector` sees it, is not modelled.
- Records.Annotate: INFO fields are a map, so the order of fields in a record and the order in which `info_fields()` yields them are not modelled. Keys are removed by set difference.
- Record contents other than chromosome, position and INFO fields (alleles, genotypes) are not modelled. The merge never reads them.
- The code does not reject non-numeric region text, does not check the output header for a duplicate `PATCH_VARIANT`, and does not validate region order; the model follows the code.
- ContigMerge.MergeByContig: the order of chromosomes is a parameter. The header's contig order, which the library would supply, is not modelled, and base records on a chromosome missing from the parameter are not written.

## Findings

| source | as written | input that shows it | evidently intended | confidence | as-written member | corrected member |
|---|---|---|---|---|---|---|
| main.cpp:128-145 | `-O vcf` and `-O ubcf` set only the format and leave `compression_level_` as an earlier `-O` set it | `-O bcf -O vcf`: the format is VCF, but the level stays 6, so the output is compressed | `vcf` and `ubcf` name uncompressed output and mean level 0 whatever came before, as with a single option | medium; not executed | OutputFormat.RepeatedOptionKeepsLevel | OutputFormat.ParseFormatOptionsFixed |
| main.cpp:228-248 | the loop before a region and the test `rec.position() < reg.from()` compare positions only, so a base record on another chromosome can end the loop, be written or be consumed | base `chr1:300`, `chr2:60`; regions `chr1:100-200` (no patch records) and `chr2:50-80` (patch `chr2:55`): `chr2:60` is written though it lies inside `chr2:50-80`, and the output is `chr2:55`, `chr1:300`, `chr2:60` | a base record is compared only with regions on its own chromosome, so every base record inside a region is replaced | medium; not executed | ContigMerge.TwoContigLeak | ContigMerge.ContigMergeDropsCovered |
