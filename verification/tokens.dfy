/**
 * The comma-list splitter that turns the region argument into region
 * expressions: every delimiter ends a token, and the text after the last
 * delimiter (possibly empty) is one more token.
 */
module Tokens {
  import opened Wrappers
  import opened Text

  /** Number of occurrences of `c` in `s`. */
  function Count(s: string, c: char): nat {
    multiset(s)[c]
  }

  /** Inverse of splitting: the tokens with one delimiter between neighbours. */
  function Join(tokens: seq<string>, delim: char): string {
    if |tokens| == 0 then ""
    else if |tokens| == 1 then tokens[0]
    else tokens[0] + [delim] + Join(tokens[1..], delim)
  }

  /** A string with no occurrence of `c` before index `d`. */
  lemma CountPrefixFree(s: string, c: char, d: nat)
    requires d <= |s|
    requires forall j :: 0 <= j < d ==> s[j] != c
    ensures Count(s[..d], c) == 0
  {
    assert c !in s[..d];
  }

  /**
   * Splits `s` at every `delim`: the text before the first delimiter is a
   * token, and splitting resumes just after it; with no delimiter left the
   * whole remaining text is the last token.
   */
  function Split(s: string, delim: char): (r: seq<string>)
    ensures |r| > 0
    decreases |s|
  {
    match Find(s, delim, 0)
    case None => [s]
    case Some(d) => [s[..d]] + Split(s[d + 1..], delim)
  }

  /** Splitting yields exactly one more token than there are delimiters. */
  lemma {:induction false} SplitCount(s: string, delim: char)
    ensures |Split(s, delim)| == Count(s, delim) + 1
    decreases |s|
  {
    match Find(s, delim, 0)
    case None =>
      assert delim !in s by {
        forall j | 0 <= j < |s| ensures s[j] != delim { }
      }
    case Some(d) =>
      SplitCount(s[d + 1..], delim);
      CountPrefixFree(s, delim, d);
      assert s == s[..d] + [delim] + s[d + 1..];
      assert multiset(s) == multiset(s[..d]) + multiset([delim]) + multiset(s[d + 1..]);
  }

  /** No token contains the delimiter. */
  lemma {:induction false} SplitTokensFree(s: string, delim: char)
    ensures forall i :: 0 <= i < |Split(s, delim)| ==> delim !in Split(s, delim)[i]
    decreases |s|
  {
    match Find(s, delim, 0)
    case None =>
      assert delim !in s by {
        forall j | 0 <= j < |s| ensures s[j] != delim { }
      }
    case Some(d) =>
      SplitTokensFree(s[d + 1..], delim);
      assert delim !in s[..d] by {
        forall j | 0 <= j < d ensures s[..d][j] != delim { }
      }
  }

  /** Joining the tokens with the delimiter gives back the input. */
  lemma {:induction false} JoinSplit(s: string, delim: char)
    ensures Join(Split(s, delim), delim) == s
    decreases |s|
  {
    match Find(s, delim, 0)
    case None =>
    case Some(d) =>
      var rest := Split(s[d + 1..], delim);
      JoinSplit(s[d + 1..], delim);
      assert Join([s[..d]] + rest, delim) == s[..d] + [delim] + Join(rest, delim);
      assert s == s[..d] + [delim] + s[d + 1..];
  }

  /** Joining delimiter-free tokens gives a string the splitter cuts back into those tokens. */
  lemma {:induction false} SplitJoin(tokens: seq<string>, delim: char)
    requires |tokens| > 0
    requires forall i :: 0 <= i < |tokens| ==> delim !in tokens[i]
    ensures Split(Join(tokens, delim), delim) == tokens
  {
    if |tokens| == 1 {
      assert Join(tokens, delim) == tokens[0];
    } else {
      var t, more := tokens[0], Join(tokens[1..], delim);
      assert Join(tokens, delim) == t + [delim] + more;
      SplitLead(t, more, delim);
      SplitJoin(tokens[1..], delim);
      assert tokens == [t] + tokens[1..];
    }
  }

  /** A delimiter-free token followed by the delimiter is split off first. */
  lemma SplitLead(t: string, more: string, delim: char)
    requires delim !in t
    ensures Split(t + [delim] + more, delim) == [t] + Split(more, delim)
  {
    var s := t + [delim] + more;
    forall j | 0 <= j < |t| ensures s[j] != delim {
      assert s[j] == t[j];
    }
    FindFirst(s, delim, 0, |t|);
    assert s[..|t|] == t && s[|t| + 1..] == more;
    SplitStep(s, delim, |t|);
  }

  /** Searching a suffix finds the same occurrence, re-based to the suffix. */
  lemma FindInSuffix(s: string, c: char, k: nat)
    requires k <= |s|
    ensures Find(s[k..], c, 0) == (match Find(s, c, k) case None => None case Some(i) => Some(i - k))
  {
    match Find(s, c, k)
    case None =>
      FindNone(s[k..], c, 0);
    case Some(i) =>
      FindFirst(s[k..], c, 0, i - k);
  }

  lemma SplitStep(t: string, delim: char, d: nat)
    requires Find(t, delim, 0) == Some(d)
    ensures Split(t, delim) == [t[..d]] + Split(t[d + 1..], delim)
  {
  }

  lemma SuffixSlices(input: string, s: nat, e: nat)
    requires s <= e < |input|
    ensures input[s..][..e - s] == input[s..e]
    ensures input[s..][e - s + 1..] == input[e + 1..]
  {
  }

  /** One step of the walk: the token before the next delimiter, then the rest. */
  lemma SplitFrom(input: string, delim: char, s: nat, e: nat)
    requires s <= |input|
    requires Find(input, delim, s) == Some(e)
    ensures Split(input[s..], delim) == [input[s..e]] + Split(input[e + 1..], delim)
  {
    FindInSuffix(input, delim, s);
    SplitStep(input[s..], delim, e - s);
    SuffixSlices(input, s, e);
  }

  /** The invariant of the splitting loop survives one token. */
  lemma SplitLoopStep(input: string, delim: char, s: nat, e: nat, ret: seq<string>)
    requires s <= |input| && Find(input, delim, s) == Some(e)
    ensures ret + Split(input[s..], delim) == (ret + [input[s..e]]) + Split(input[e + 1..], delim)
  {
    SplitFrom(input, delim, s, e);
    assert ret + ([input[s..e]] + Split(input[e + 1..], delim)) == (ret + [input[s..e]]) + Split(input[e + 1..], delim);
  }

  /** No delimiter left: the remaining text is the last token. */
  lemma SplitFromLast(input: string, delim: char, s: nat)
    requires s <= |input|
    requires Find(input, delim, s) == None
    ensures Split(input[s..], delim) == [input[s..]]
  {
    FindInSuffix(input, delim, s);
  }

  /**
   * The walk of the C code: find the next delimiter from the current
   * start, emit the text before it, restart just after it; the text after
   * the last delimiter is the final token.
   */
  method SplitString(input: string, delim: char) returns (ret: seq<string>)
    ensures ret == Split(input, delim)
  {
    ret := [];
    var s: nat := 0;
    var d := Find(input, delim, s);
    assert input[s..] == input;
    while d.Some?
      invariant s <= |input|
      invariant d == Find(input, delim, s)
      invariant ret + Split(input[s..], delim) == Split(input, delim)
      decreases |input| - s
    {
      var e := d.value;
      SplitLoopStep(input, delim, s, e, ret);
      ret := ret + [input[s..e]];
      s := e + 1;
      d := Find(input, delim, s);
    }
    SplitFromLast(input, delim, s);
    assert ret + Split(input[s..], delim) == ret + [input[s..]];
    ret := ret + [input[s..]];
  }
}
