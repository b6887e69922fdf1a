/**
 * Run variables: named strings that a worker substitutes for `$NAME`
 * tokens on the command line of an executable.
 */
module RunVariables {
  import opened Text

  // ---------------------------------------------------------------- one substitution pass

  /** A character that may start a variable name: an ASCII letter or '_'. */
  predicate IsNameStart(c: char) {
    IsAsciiLetter(c) || c == '_'
  }

  /** A character that may continue a variable name. */
  predicate IsNameChar(c: char) {
    IsNameStart(c) || IsDigit(c)
  }

  /** The end of the run of name characters starting at i. */
  function NameEnd(s: String, i: nat): (j: nat)
    requires i <= |s|
    ensures i <= j <= |s|
    ensures forall k :: i <= k < j ==> IsNameChar(s[k])
    ensures j < |s| ==> !IsNameChar(s[j])
    decreases |s| - i
  {
    if i < |s| && IsNameChar(s[i]) then NameEnd(s, i + 1) else i
  }

  /** A `$NAME` token starts at i: a '$' followed by a name-start character. */
  predicate TokenAt(s: String, i: nat) {
    i + 1 < |s| && s[i] == '$' && IsNameStart(s[i + 1])
  }

  /**
   * One `re.sub` pass from position i: each maximal `$NAME` token whose
   * name is defined is replaced by its value; the others stay as they are.
   */
  function SubstFrom(vars: map<String, String>, s: String, i: nat): String
    requires i <= |s|
    decreases |s| - i
  {
    if i == |s| then []
    else if TokenAt(s, i) then
      var j := NameEnd(s, i + 1);
      var name := s[i + 1..j];
      (if name in vars then vars[name] else s[i..j]) + SubstFrom(vars, s, j)
    else [s[i]] + SubstFrom(vars, s, i + 1)
  }

  function Subst(vars: map<String, String>, s: String): String {
    SubstFrom(vars, s, 0)
  }

  /** Whether some token from position i names a defined variable. */
  predicate FoundFrom(vars: map<String, String>, s: String, i: nat)
    requires i <= |s|
    decreases |s| - i
  {
    if i == |s| then false
    else if TokenAt(s, i) then
      var j := NameEnd(s, i + 1);
      s[i + 1..j] in vars || FoundFrom(vars, s, j)
    else FoundFrom(vars, s, i + 1)
  }

  predicate Found(vars: map<String, String>, s: String) {
    FoundFrom(vars, s, 0)
  }

  lemma {:induction false} SubstFromUnchanged(vars: map<String, String>, s: String, i: nat)
    requires i <= |s| && !FoundFrom(vars, s, i)
    ensures SubstFrom(vars, s, i) == s[i..]
    decreases |s| - i
  {
    if i < |s| {
      if TokenAt(s, i) {
        var j := NameEnd(s, i + 1);
        SubstFromUnchanged(vars, s, j);
        assert s[i..] == s[i..j] + s[j..];
      } else {
        SubstFromUnchanged(vars, s, i + 1);
        assert s[i..] == [s[i]] + s[i + 1..];
      }
    }
  }

  /** A pass that finds no defined variable leaves the string as it is. */
  lemma SubstUnchanged(vars: map<String, String>, s: String)
    requires !Found(vars, s)
    ensures Subst(vars, s) == s
  {
    SubstFromUnchanged(vars, s, 0);
  }

  lemma {:induction false} NoDollarNotFoundFrom(vars: map<String, String>, s: String, i: nat)
    requires i <= |s| && '$' !in s
    ensures !FoundFrom(vars, s, i)
    decreases |s| - i
  {
    if i < |s| {
      NoDollarNotFoundFrom(vars, s, i + 1);
    }
  }

  /** A string without '$' holds no token. */
  lemma NoDollarNotFound(vars: map<String, String>, s: String)
    requires '$' !in s
    ensures !Found(vars, s)
  {
    NoDollarNotFoundFrom(vars, s, 0);
  }

  lemma {:induction false} NothingDefinedNotFoundFrom(s: String, i: nat)
    requires i <= |s|
    ensures !FoundFrom(map[], s, i)
    decreases |s| - i
  {
    if i < |s| {
      if TokenAt(s, i) {
        NothingDefinedNotFoundFrom(s, NameEnd(s, i + 1));
      } else {
        NothingDefinedNotFoundFrom(s, i + 1);
      }
    }
  }

  /** Undefined tokens are left verbatim: with no variables a pass changes nothing. */
  lemma NothingDefinedUnchanged(s: String)
    ensures Subst(map[], s) == s
  {
    NothingDefinedNotFoundFrom(s, 0);
    SubstUnchanged(map[], s);
  }

  /** A whole string that is one token of a defined name becomes its value. */
  lemma SubstSingleToken(vars: map<String, String>, name: String)
    requires |name| > 0 && IsNameStart(name[0]) && forall k :: 0 <= k < |name| ==> IsNameChar(name[k])
    requires name in vars
    ensures Subst(vars, "$" + name) == vars[name]
  {
    var s := "$" + name;
    assert s[1] == name[0];
    assert TokenAt(s, 0);
    assert NameEnd(s, 1) == |s| by {
      forall k | 1 <= k < |s| ensures IsNameChar(s[k]) {
        assert s[k] == name[k - 1];
      }
      NameEndAll(s, 1);
    }
    assert s[1..|s|] == name;
    assert SubstFrom(vars, s, |s|) == [];
    assert SubstFrom(vars, s, 0) == vars[name] + SubstFrom(vars, s, |s|);
  }

  lemma {:induction false} NameEndAll(s: String, i: nat)
    requires i <= |s| && forall k :: i <= k < |s| ==> IsNameChar(s[k])
    ensures NameEnd(s, i) == |s|
    decreases |s| - i
  {
    if i < |s| {
      NameEndAll(s, i + 1);
    }
  }

  /** `${NAME}` is not a token: '{' cannot start a name, so a pass keeps it. */
  lemma BracedNotExpanded(vars: map<String, String>, name: String)
    requires '$' !in name
    ensures Subst(vars, "${" + name + "}") == "${" + name + "}"
  {
    var s := "${" + name + "}";
    assert !TokenAt(s, 0);
    assert s[1..] == "{" + name + "}";
    assert '$' !in s[1..];
    NoDollarNotFoundFrom(vars, s[1..], 0);
    NotFoundShift(vars, s);
    SubstUnchanged(vars, s);
  }

  /** The first character of a string that does not start a token does not change what is found. */
  lemma NotFoundShift(vars: map<String, String>, s: String)
    requires |s| > 0 && !TokenAt(s, 0) && !Found(vars, s[1..])
    ensures !Found(vars, s)
  {
    FoundFromShift(vars, s, 1);
  }

  /** Scanning s from i finds what scanning s[1..] finds from i - 1, once past a non-token start. */
  lemma {:induction false} FoundFromShift(vars: map<String, String>, s: String, i: nat)
    requires 1 <= i <= |s|
    ensures FoundFrom(vars, s, i) == FoundFrom(vars, s[1..], i - 1)
    decreases |s| - i
  {
    var t := s[1..];
    if i < |s| {
      assert t[i - 1] == s[i];
      if TokenAt(s, i) {
        assert TokenAt(t, i - 1);
        var j := NameEnd(s, i + 1);
        NameEndShift(s, i + 1);
        assert NameEnd(t, i) == j - 1;
        assert t[i..j - 1] == s[i + 1..j];
        FoundFromShift(vars, s, j);
      } else {
        assert !TokenAt(t, i - 1);
        FoundFromShift(vars, s, i + 1);
      }
    }
  }

  lemma {:induction false} NameEndShift(s: String, i: nat)
    requires 1 <= i <= |s|
    ensures NameEnd(s[1..], i - 1) == NameEnd(s, i) - 1
    decreases |s| - i
  {
    if i < |s| {
      assert s[1..][i - 1] == s[i];
      NameEndShift(s, i + 1);
    }
  }

  // ---------------------------------------------------------------- expandStr

  /**
   * expandStr as written: the loop's flag is set only in a local of the
   * replacement callback, so the loop body runs once, which is two passes.
   */
  method ExpandStr(vars: map<String, String>, str: String) returns (r: String)
    ensures r == Subst(vars, Subst(vars, str))
  {
    r := str;
    var i := 0;
    var foundMatch := true;
    while foundMatch && i < 10
      invariant 0 <= i <= 1 && (i == 0 <==> foundMatch)
      invariant r == if i == 0 then str else Subst(vars, Subst(vars, str))
      decreases 10 - i
    {
      foundMatch := false;
      var nstr := Subst(vars, r);
      var nstr2 := Subst(vars, nstr);
      r := nstr2;
      i := i + 1;
    }
  }

  /** Variables nested three deep: A refers to B, B to C, and C is "x". */
  function Chain(): map<String, String> {
    map["A" := "$B", "B" := "$C", "C" := "x"]
  }

  /** Two passes stop one level short of a three-deep chain: "$A" comes out as "$C". */
  lemma ExpandStopsAtTwoLevels()
    ensures Subst(Chain(), Subst(Chain(), "$A")) == "$C"
  {
    assert "$" + "A" == "$A" && "$" + "B" == "$B";
    SubstSingleToken(Chain(), "A");
    SubstSingleToken(Chain(), "B");
  }

  /**
   * The expansion the loop was written for: rounds of two passes repeat
   * while a round found a defined variable, at most `rounds` times.
   */
  function ExpandRounds(vars: map<String, String>, s: String, rounds: nat): String
    decreases rounds
  {
    if rounds == 0 then s
    else
      var t := Subst(vars, Subst(vars, s));
      if Found(vars, s) || Found(vars, Subst(vars, s)) then ExpandRounds(vars, t, rounds - 1) else t
  }

  /** The loop with its flag kept: at most ten rounds, stopping after a round that found nothing. */
  method ExpandStrCorrected(vars: map<String, String>, str: String) returns (r: String)
    ensures r == ExpandRounds(vars, str, 10)
  {
    r := str;
    var i := 0;
    var foundMatch := true;
    while foundMatch && i < 10
      invariant 0 <= i <= 10
      invariant foundMatch ==> ExpandRounds(vars, r, 10 - i) == ExpandRounds(vars, str, 10)
      invariant !foundMatch ==> r == ExpandRounds(vars, str, 10)
      decreases 10 - i
    {
      var nstr := Subst(vars, r);
      foundMatch := Found(vars, r) || Found(vars, nstr);
      var nstr2 := Subst(vars, nstr);
      r := nstr2;
      i := i + 1;
    }
  }

  /** A string with no defined variable is its own expansion. */
  lemma ExpandRoundsNothingFound(vars: map<String, String>, s: String, rounds: nat)
    requires !Found(vars, s)
    ensures ExpandRounds(vars, s, rounds) == s
  {
    if rounds > 0 {
      SubstUnchanged(vars, s);
    }
  }

  /** Where two passes leave no defined variable, the corrected loop agrees with the code as written. */
  lemma ExpandAgreesWithinTwoLevels(vars: map<String, String>, s: String)
    requires !Found(vars, Subst(vars, Subst(vars, s)))
    ensures ExpandRounds(vars, s, 10) == Subst(vars, Subst(vars, s))
  {
    var t := Subst(vars, Subst(vars, s));
    if Found(vars, s) || Found(vars, Subst(vars, s)) {
      ExpandRoundsNothingFound(vars, t, 9);
    }
  }

  /** The corrected loop follows the three-deep chain to its end. */
  lemma ExpandCorrectedFollowsChain()
    ensures ExpandRounds(Chain(), "$A", 10) == "x"
  {
    SubstSingleToken(Chain(), "A");
    SubstSingleToken(Chain(), "B");
    SubstSingleToken(Chain(), "C");
    assert Found(Chain(), "$A") by {
      assert IsNameStart("$A"[1]);
      assert TokenAt("$A", 0);
      NameEndAll("$A", 2);
      assert NameEnd("$A", 1) == 2;
      assert "$A"[1..2] == "A";
    }
    assert !Found(Chain(), "x") by {
      NoDollarNotFound(Chain(), "x");
    }
    var once := Subst(Chain(), Subst(Chain(), "$A"));
    assert once == "$C";
    ExpandAgreesWithinTwoLevels(Chain(), "$C");
  }

  // ---------------------------------------------------------------- the variable set

  class RunVars {
    var vars: map<String, String>

    constructor()
      ensures vars == map[]
    {
      vars := map[];
    }

    /** add: defines the variable, overwriting an earlier value. */
    method Add(name: String, value: String)
      modifies this
      ensures vars == old(vars)[name := value]
    {
      vars := vars[name := value];
    }

    /** addRunVars: every variable of `other` is copied in, overwriting same-named ones. */
    method AddRunVars(other: RunVars)
      modifies this
      ensures vars == old(vars) + old(other.vars)
    {
      var src := other.vars;
      var acc := vars;
      var todo := src.Keys;
      while todo != {}
        invariant todo <= src.Keys
        invariant acc == old(vars) + map n | n in src.Keys - todo :: src[n]
        decreases todo
      {
        var name :| name in todo;
        acc := acc[name := src[name]];
        todo := todo - {name};
      }
      vars := acc;
    }

    /** expandStr with the current variables, its loop flag kept. */
    method Expand(str: String) returns (r: String)
      ensures r == ExpandRounds(vars, str, 10)
    {
      r := ExpandStrCorrected(vars, str);
    }
  }
}
