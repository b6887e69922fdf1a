/**
 * Version numbers of executables: a version string is read into a list of
 * integers, and two versions are compared component by component with the
 * shorter list padded with zeros.
 */
module Versions {
  import opened Wrappers
  import opened Text

  // ---------------------------------------------------------------- reading a version string

  /** What one token adds to the list: its value, or nothing when `int()` refuses it. */
  function TokenNumber(tok: String): (r: seq<int>)
    ensures |r| <= 1
  {
    match ParseInt(tok)
    case Some(v) => [v]
    case None => []
  }

  /** The values of the tokens that are integers, in order; the others are skipped. */
  function Numbers(tokens: seq<String>): (r: seq<int>)
    ensures |r| <= |tokens|
  {
    if |tokens| == 0 then []
    else Numbers(tokens[..|tokens| - 1]) + TokenNumber(tokens[|tokens| - 1])
  }

  /** A token that is not an integer leaves the list as it was. */
  lemma NumbersSkip(tokens: seq<String>, tok: String)
    requires ParseInt(tok).None?
    ensures Numbers(tokens + [tok]) == Numbers(tokens)
  {
    assert (tokens + [tok])[..|tokens|] == tokens;
  }

  /** The constructor's loop: the integer tokens appended one by one. */
  method CollectNumbers(tokens: seq<String>) returns (list: seq<int>)
    ensures list == Numbers(tokens)
  {
    list := [];
    for k := 0 to |tokens|
      invariant list == Numbers(tokens[..k])
    {
      assert tokens[..k + 1][..k] == tokens[..k];
      match ParseInt(tokens[k]) {
        case Some(v) => list := list + [v];
        case None =>
      }
    }
    assert tokens[..|tokens|] == tokens;
  }

  /** The version list as the constructor as written builds it: the string is split at whitespace. */
  function VersionList(s: String): seq<int> {
    Numbers(SplitWS(s))
  }

  /** A string without whitespace is one token. */
  lemma SplitWSOneToken(s: String)
    requires |s| > 0 && NoSpace(s)
    ensures SplitWS(s) == [s]
  {
    assert StripLeft(s) == s;
    TokenLenAll(s);
    assert s[|s|..] == [] && s[..|s|] == s;
    assert SplitWS([]) == [];
  }

  /**
   * A dotted version such as "4.5" is a single token that `int()` refuses,
   * so its list is empty.
   */
  lemma DottedVersionIsEmpty(s: String)
    requires NoSpace(s) && '.' in s
    ensures VersionList(s) == []
  {
    SplitWSOneToken(s);
    IntRefusesDot(s);
    assert [s][..0] == [];
  }

  /** `int()` refuses a token holding a dot. */
  lemma IntRefusesDot(s: String)
    requires NoSpace(s) && '.' in s
    ensures ParseInt(s).None?
  {
    StripNoSpace(s);
    var j :| 0 <= j < |s| && s[j] == '.';
    assert !IsDigit(s[j]);
    if s[0] == '-' || s[0] == '+' {
      assert s[1..][j - 1] == '.';
      assert !AllDigits(s[1..]);
    } else {
      assert !AllDigits(s);
    }
  }

  /** The version list once the string is split at its dots, as the class describes it. */
  function VersionListCorrected(s: String): seq<int> {
    Numbers(Split(s, '.'))
  }

  /** The numerals of a list of components. */
  function Numerals(xs: seq<nat>): (r: seq<String>)
    ensures |r| == |xs|
    ensures forall i :: 0 <= i < |xs| ==> r[i] == NatToString(xs[i])
  {
    if |xs| == 0 then [] else Numerals(xs[..|xs| - 1]) + [NatToString(xs[|xs| - 1])]
  }

  /** "x.y.z" for the components [x, y, z]. */
  function Dotted(xs: seq<nat>): String {
    Join(Numerals(xs), '.')
  }

  /** Tokens printed with `%d` are each read back by `int()`: the list is the numbers printed, in order. */
  lemma {:induction false} NumbersOfNumerals(xs: seq<nat>)
    ensures Numbers(Numerals(xs)) == xs
  {
    if |xs| > 0 {
      var n := |xs| - 1;
      assert Numerals(xs) == Numerals(xs[..n]) + [NatToString(xs[n])];
      NumbersOfNumerals(xs[..n]);
      NumbersSnoc(Numerals(xs[..n]), NatToString(xs[n]));
      NumeralNumber(xs[n]);
      LastSplit(xs);
    }
  }

  lemma NumbersSnoc(tokens: seq<String>, tok: String)
    ensures Numbers(tokens + [tok]) == Numbers(tokens) + TokenNumber(tok)
  {
    assert (tokens + [tok])[..|tokens|] == tokens;
  }

  lemma NumeralNumber(x: nat)
    ensures TokenNumber(NatToString(x)) == [x]
  {
    ParseIntToString(x);
  }

  /** Reading a dotted version string at its dots gives back its components. */
  lemma DottedRoundTrip(xs: seq<nat>)
    requires |xs| > 0
    ensures VersionListCorrected(Dotted(xs)) == xs
  {
    var parts := Numerals(xs);
    forall i | 0 <= i < |parts| ensures '.' !in parts[i] {
      assert AllDigits(parts[i]);
    }
    JoinSplit(parts, '.');
    NumbersOfNumerals(xs);
  }

  /** Read as written, "4.5" has no components, like "4.6" or the empty string. */
  lemma DottedVersionAsWritten()
    ensures VersionList("4.5") == []
  {
    assert "4.5"[1] == '.';
    DottedVersionIsEmpty("4.5");
  }

  /** Read at its dots, "4.5" has the components 4 and 5. */
  lemma DottedVersionCorrected()
    ensures VersionListCorrected("4.5") == [4, 5]
  {
    assert Dotted([4, 5]) == "4.5" by {
      assert NatToString(4) == "4" && NatToString(5) == "5";
      assert Numerals([4, 5]) == ["4", "5"];
      assert Join(["4", "5"], '.') == "4" + "." + "5";
    }
    DottedRoundTrip([4, 5]);
  }

  // ---------------------------------------------------------------- comparing

  /** Component i, or 0 past the end of the list. */
  function Padded(l: seq<int>, i: nat): int {
    if i < |l| then l[i] else 0
  }

  function Max(a: nat, b: nat): nat { if a > b then a else b }

  /**
   * The comparison loop as written, from component i on: its second test
   * repeats the first with the operands swapped, so it never answers -1,
   * and a smaller component does not stop the scan.
   */
  function CompareFrom(a: seq<int>, b: seq<int>, i: nat, n: nat): (r: int)
    ensures r == 0 || r == 1
    ensures r == 1 <==> exists j :: i <= j < n && Padded(a, j) > Padded(b, j)
    decreases n - i
  {
    if i >= n then 0
    else if Padded(a, i) > Padded(b, i) then 1
    else if Padded(b, i) < Padded(a, i) then -1
    else CompareFrom(a, b, i + 1, n)
  }

  /** `__cmp__` as written: 1 when some padded component is larger, 0 otherwise. */
  function Compare(a: seq<int>, b: seq<int>): (r: int)
    ensures r == 0 || r == 1
    ensures r == 1 <==> exists j :: 0 <= j < Max(|a|, |b|) && Padded(a, j) > Padded(b, j)
  {
    CompareFrom(a, b, 0, Max(|a|, |b|))
  }

  /** Each of 1.5 and 2.0 compares greater than the other, and 1 and 2 compare equal. */
  lemma CompareNotAntisymmetric()
    ensures Compare([1, 5], [2, 0]) == 1 && Compare([2, 0], [1, 5]) == 1
    ensures Compare([1], [2]) == 0
  {
    assert Padded([1, 5], 1) > Padded([2, 0], 1);
    assert Padded([2, 0], 0) > Padded([1, 5], 0);
  }

  /** The comparison the class documents: the first differing padded component decides. */
  function CompareCorrectedFrom(a: seq<int>, b: seq<int>, i: nat, n: nat): (r: int)
    ensures r == -1 || r == 0 || r == 1
    decreases n - i
  {
    if i >= n then 0
    else if Padded(a, i) > Padded(b, i) then 1
    else if Padded(a, i) < Padded(b, i) then -1
    else CompareCorrectedFrom(a, b, i + 1, n)
  }

  function CompareCorrected(a: seq<int>, b: seq<int>): (r: int)
    ensures r == -1 || r == 0 || r == 1
  {
    CompareCorrectedFrom(a, b, 0, Max(|a|, |b|))
  }

  lemma {:induction false} CompareCorrectedFromSwap(a: seq<int>, b: seq<int>, i: nat, n: nat)
    ensures CompareCorrectedFrom(a, b, i, n) == -CompareCorrectedFrom(b, a, i, n)
    decreases n - i
  {
    if i < n && Padded(a, i) == Padded(b, i) {
      CompareCorrectedFromSwap(a, b, i + 1, n);
    }
  }

  /** Swapping the operands negates the corrected comparison. */
  lemma CompareCorrectedAntisymmetric(a: seq<int>, b: seq<int>)
    ensures CompareCorrected(a, b) == -CompareCorrected(b, a)
  {
    CompareCorrectedFromSwap(a, b, 0, Max(|a|, |b|));
  }

  lemma {:induction false} CompareCorrectedFromZero(a: seq<int>, b: seq<int>, i: nat, n: nat)
    ensures CompareCorrectedFrom(a, b, i, n) == 0 <==> forall j :: i <= j < n ==> Padded(a, j) == Padded(b, j)
    decreases n - i
  {
    if i < n {
      CompareCorrectedFromZero(a, b, i + 1, n);
    }
  }

  /** The corrected comparison answers 0 exactly when the padded lists agree, so 1.0 equals 1. */
  lemma CompareCorrectedZero(a: seq<int>, b: seq<int>)
    ensures CompareCorrected(a, b) == 0 <==>
      forall j :: 0 <= j < Max(|a|, |b|) ==> Padded(a, j) == Padded(b, j)
  {
    CompareCorrectedFromZero(a, b, 0, Max(|a|, |b|));
  }

  lemma {:induction false} CompareCorrectedFromLess(a: seq<int>, b: seq<int>, i: nat, n: nat)
    ensures CompareCorrectedFrom(a, b, i, n) == -1 <==>
      exists j :: i <= j < n && Padded(a, j) < Padded(b, j)
                  && forall k :: i <= k < j ==> Padded(a, k) == Padded(b, k)
    decreases n - i
  {
    if i < n {
      CompareCorrectedFromLess(a, b, i + 1, n);
      if Padded(a, i) == Padded(b, i) && CompareCorrectedFrom(a, b, i + 1, n) == -1 {
        var j :| i + 1 <= j < n && Padded(a, j) < Padded(b, j)
                 && forall k :: i + 1 <= k < j ==> Padded(a, k) == Padded(b, k);
        assert forall k :: i <= k < j ==> Padded(a, k) == Padded(b, k);
      }
    }
  }

  /** The corrected comparison answers -1 exactly when the first differing component is smaller. */
  lemma CompareCorrectedLess(a: seq<int>, b: seq<int>)
    ensures CompareCorrected(a, b) == -1 <==>
      exists j :: 0 <= j < Max(|a|, |b|) && Padded(a, j) < Padded(b, j)
                  && forall k :: 0 <= k < j ==> Padded(a, k) == Padded(b, k)
  {
    CompareCorrectedFromLess(a, b, 0, Max(|a|, |b|));
  }

  /** With the corrected comparison 1.5 is below 2.0. */
  lemma CompareCorrectedExample()
    ensures CompareCorrected([1, 5], [2, 0]) == -1 && CompareCorrected([2, 0], [1, 5]) == 1
  {
  }

  // ---------------------------------------------------------------- the class

  class Version {
    const versionStr: String
    const versionList: seq<int>

    /** The components are those of the string the version was built from. */
    ghost predicate Valid() {
      versionList == VersionListCorrected(versionStr)
    }

    /** A version read at its dots, as the class documents (the corrected reading). */
    constructor(versionStr: String)
      ensures Valid()
      ensures this.versionStr == versionStr
      ensures versionList == VersionListCorrected(versionStr)
    {
      this.versionStr := versionStr;
      var list := CollectNumbers(Split(versionStr, '.'));
      versionList := list;
    }

    /** getStr: the string the version was built from, which reads back as its components. */
    function GetStr(): (s: String)
      requires Valid()
      ensures VersionListCorrected(s) == versionList
    {
      versionStr
    }

    /** `__cmp__` by the corrected comparison of the first differing padded component. */
    function CompareTo(other: Version): (r: int)
      ensures r == -CompareCorrected(other.versionList, versionList)
    {
      CompareCorrectedAntisymmetric(versionList, other.versionList);
      CompareCorrected(versionList, other.versionList)
    }
  }
}
