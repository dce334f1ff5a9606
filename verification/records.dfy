/**
 * Variant records, the output header, and the rewrite every patch record
 * undergoes: INFO fields the output header does not declare are removed and
 * the `PATCH_VARIANT` flag is set.
 */
module Records {

  /**
   * A typed INFO value. Only the empty 8-bit integer vector (the value the
   * flag is set to) matters here; every other value is opaque.
   */
  datatype InfoValue = Int8s(values: seq<int>) | Opaque(tag: nat)

  /** A variant record: chromosome, position and INFO fields by key. */
  datatype Record = Record(chrom: string, pos: nat, info: map<string, InfoValue>)

  /** A header line: its kind (`INFO`, `FORMAT`, ...) and the `ID` it declares. */
  datatype HeaderLine = HeaderLine(kind: string, id: string)

  const PatchKey := "PATCH_VARIANT"

  /** A presence-only flag is stored as an empty value. */
  const PatchFlag := Int8s([])

  /** The INFO line appended to the output header (Number=0, Type=Flag). */
  const PatchHeader := HeaderLine("INFO", PatchKey)

  /** The ids of the INFO lines of a header. */
  function InfoIds(hdrs: seq<HeaderLine>): set<string> {
    set i | 0 <= i < |hdrs| && hdrs[i].kind == "INFO" :: hdrs[i].id
  }

  /**
   * The INFO keys a patch record may keep: those the input's INFO header
   * lines declare, plus the patch flag.
   */
  function PermittedKeys(hdrs: seq<HeaderLine>): (keys: set<string>)
    ensures PatchKey in keys
    ensures forall k :: k in keys <==> k == PatchKey || k in InfoIds(hdrs)
  {
    {PatchKey} + InfoIds(hdrs)
  }

  /**
   * The output header: the input's lines, in order, then the patch flag's
   * INFO line. The INFO keys it declares are exactly the permitted keys.
   */
  function OutputHeaders(hdrs: seq<HeaderLine>): (out: seq<HeaderLine>)
    ensures |out| == |hdrs| + 1 && out[..|hdrs|] == hdrs
    ensures out[|hdrs|] == PatchHeader
    ensures InfoIds(out) == PermittedKeys(hdrs)
  {
    var out := hdrs + [PatchHeader];
    assert InfoIds(out) == InfoIds(hdrs) + {PatchKey} by {
      forall k | k in InfoIds(out) ensures k in InfoIds(hdrs) + {PatchKey} {
        var i :| 0 <= i < |out| && out[i].kind == "INFO" && out[i].id == k;
        if i < |hdrs| { assert out[i] == hdrs[i]; }
      }
      forall k | k in InfoIds(hdrs) ensures k in InfoIds(out) {
        var i :| 0 <= i < |hdrs| && hdrs[i].kind == "INFO" && hdrs[i].id == k;
        assert out[i] == hdrs[i];
      }
      assert out[|hdrs|] == PatchHeader;
    }
    out
  }

  /**
   * The rewrite of one patch record: fields whose key is not permitted are
   * removed, the others keep their values, and the flag is (re)set.
   */
  function Annotate(rec: Record, permitted: set<string>): (r: Record)
    ensures r.chrom == rec.chrom && r.pos == rec.pos
    ensures r.info.Keys == (rec.info.Keys * permitted) + {PatchKey}
    ensures r.info[PatchKey] == PatchFlag
    ensures forall k :: k in rec.info && k in permitted && k != PatchKey ==> r.info[k] == rec.info[k]
  {
    var kept := map k | k in rec.info && k in permitted :: rec.info[k];
    rec.(info := kept[PatchKey := PatchFlag])
  }

  /** A record conforms to a header when every INFO key it carries is declared there. */
  predicate Conforms(rec: Record, hdrs: seq<HeaderLine>) {
    rec.info.Keys <= InfoIds(hdrs)
  }

  /** Every rewritten patch record conforms to the output header and carries the flag. */
  lemma AnnotatedConforms(rec: Record, hdrs: seq<HeaderLine>)
    ensures Conforms(Annotate(rec, PermittedKeys(hdrs)), OutputHeaders(hdrs))
    ensures PatchKey in Annotate(rec, PermittedKeys(hdrs)).info
  {
  }

  /** Rewriting twice is rewriting once. */
  lemma AnnotateIdempotent(rec: Record, permitted: set<string>)
    ensures Annotate(Annotate(rec, permitted), permitted) == Annotate(rec, permitted)
  {
    var once := Annotate(rec, permitted);
    var twice := Annotate(once, permitted);
    assert twice.info == once.info;
  }

  /** A record that conforms to the input header also conforms to the output header. */
  lemma BaseConforms(rec: Record, hdrs: seq<HeaderLine>)
    requires Conforms(rec, hdrs)
    ensures Conforms(rec, OutputHeaders(hdrs))
  {
  }
}
