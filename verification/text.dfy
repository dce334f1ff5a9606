/**
 * Character-level helpers the region parser and the list splitter rely on:
 * `std::string::find` for one character, and `atoll` restricted to its
 * leading-decimal-digits behaviour.
 */
module Text {
  import opened Wrappers

  /** `s.find(c, start)`: the first index at or after `start` holding `c`. */
  function Find(s: string, c: char, start: nat): (r: Option<nat>)
    ensures r.Some? ==> start <= r.value < |s| && s[r.value] == c
    ensures r.Some? ==> forall j :: start <= j < r.value ==> s[j] != c
    ensures r.None? ==> forall j :: start <= j < |s| ==> s[j] != c
    decreases |s| - start
  {
    if start >= |s| then None
    else if s[start] == c then Some(start)
    else Find(s, c, start + 1)
  }

  /** The contract of `Find` pins its answer down: any first occurrence is the one found. */
  lemma FindFirst(s: string, c: char, start: nat, k: nat)
    requires start <= k < |s| && s[k] == c
    requires forall j :: start <= j < k ==> s[j] != c
    ensures Find(s, c, start) == Some(k)
  {
  }

  /** With no occurrence from `start` on, the search answers `npos`. */
  lemma FindNone(s: string, c: char, start: nat)
    requires forall j :: start <= j < |s| ==> s[j] != c
    ensures Find(s, c, start) == None
  {
  }

  predicate IsDigit(ch: char) {
    '0' <= ch <= '9'
  }

  predicate AllDigits(s: string) {
    forall i :: 0 <= i < |s| ==> IsDigit(s[i])
  }

  /** Length of the longest prefix of `s` made of decimal digits. */
  function DigitRun(s: string): (n: nat)
    ensures n <= |s|
    ensures AllDigits(s[..n])
    ensures n < |s| ==> !IsDigit(s[n])
  {
    if |s| == 0 || !IsDigit(s[0]) then 0
    else
      var n := 1 + DigitRun(s[1..]);
      assert s[..n] == [s[0]] + s[1..][..n - 1];
      n
  }

  /** The number a string of decimal digits denotes (most significant first). */
  function ValueOf(digits: string): nat
    requires AllDigits(digits)
  {
    if |digits| == 0 then 0
    else ValueOf(digits[..|digits| - 1]) * 10 + (digits[|digits| - 1] as int - '0' as int)
  }

  /**
   * `atoll` as the region parser uses it: the value of the leading run of
   * decimal digits, and 0 when the text does not start with a digit.
   */
  function Atoll(s: string): (v: nat)
    ensures |s| == 0 || !IsDigit(s[0]) ==> v == 0
  {
    ValueOf(s[..DigitRun(s)])
  }

  /** Decimal rendering of a natural number, without leading zeros. */
  function ShowNat(n: nat): (s: string)
    ensures |s| > 0 && AllDigits(s)
  {
    var d := ['0' + (n % 10) as char];
    if n < 10 then d else ShowNat(n / 10) + d
  }

  /** Reading back a rendered number gives the number. */
  lemma {:induction false} ValueOfShowNat(n: nat)
    ensures ValueOf(ShowNat(n)) == n
  {
    if n >= 10 {
      var s := ShowNat(n);
      assert s[..|s| - 1] == ShowNat(n / 10);
      ValueOfShowNat(n / 10);
    }
  }

  /** `atoll` reads only the leading digits: whatever follows a non-digit is ignored. */
  lemma AtollDigitsThen(digits: string, tail: string)
    requires AllDigits(digits)
    requires |tail| == 0 || !IsDigit(tail[0])
    ensures Atoll(digits + tail) == ValueOf(digits)
  {
    var s := digits + tail;
    var n := DigitRun(s);
    assert s[..|digits|] == digits;
    assert n == |digits|;
    assert s[..n] == digits;
  }

  /** Round trip: `atoll` of a rendered number is that number. */
  lemma AtollShowNat(n: nat)
    ensures Atoll(ShowNat(n)) == n
  {
    AtollDigitsThen(ShowNat(n), "");
    assert ShowNat(n) + "" == ShowNat(n);
    ValueOfShowNat(n);
  }
}
