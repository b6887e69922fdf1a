/**
 * The dataflow language's reserved words and separators, and the identifier
 * checks of cpc/dataflow/keywords.py.
 */
module Keywords {
  import opened Wrappers
  import opened Text

  /** The instance name that denotes the enclosing network. */
  const Self: String := "self"
  /** I/O direction specifiers. */
  const In: String := "in"
  const Out: String := "out"
  const SubIn: String := "sub_in"
  const SubOut: String := "sub_out"
  const ExtIn: String := "ext_in"
  const ExtOut: String := "ext_out"

  const InstSep: char := ':'
  const ArraySepStart: char := '['
  const ArraySepEnd: char := ']'
  const SubTypeSep: char := '.'
  const ModSep: String := "::"

  /** The words an identifier may not be. */
  const Reserved: set<String> := {Self, In, Out, SubIn, SubOut, ExtIn, ExtOut}

  /** `string.ascii_letters + string.digits + '_'`. */
  predicate AllowedIdChar(c: char) { IsAsciiLetter(c) || IsDigit(c) || c == '_' }

  function DashToUnderscore(c: char): char { if c == '-' then '_' else c }

  /** `idString.replace('-', '_')`. */
  function FixID(s: String): (r: String)
    ensures |r| == |s| && '-' !in r
    ensures forall i {:trigger r[i]} :: 0 <= i < |s| ==> r[i] == (if s[i] == '-' then '_' else s[i])
  {
    if |s| == 0 then [] else FixID(s[..|s| - 1]) + [DashToUnderscore(s[|s| - 1])]
  }

  /** A string without dashes is left as it is. */
  lemma FixIDUnchanged(s: String)
    requires '-' !in s
    ensures FixID(s) == s
  {
    var r := FixID(s);
    forall i | 0 <= i < |s| ensures r[i] == s[i] {
      assert s[i] != '-';
    }
  }

  /** Fixing twice is fixing once. */
  lemma FixIDIdempotent(s: String)
    ensures FixID(FixID(s)) == FixID(s)
  {
    FixIDUnchanged(FixID(s));
  }

  /**
   * `idString.translate(idEmptyTransTable, allowedIdChars)`: the characters
   * of `s` that are not allowed in an identifier, in order.
   */
  function DisallowedChars(s: String): (r: String)
    ensures |r| == 0 <==> forall i :: 0 <= i < |s| ==> AllowedIdChar(s[i])
    ensures forall i :: 0 <= i < |r| ==> !AllowedIdChar(r[i])
  {
    if |s| == 0 then []
    else
      var init := DisallowedChars(s[..|s| - 1]);
      var c := s[|s| - 1];
      assert forall i :: 0 <= i < |s| - 1 ==> s[..|s| - 1][i] == s[i];
      if AllowedIdChar(c) then init else init + [c]
  }

  /**
   * Why validIdentifier refuses a string.  The source raises
   * `IdentifierError`, a class that is commented out of keywords.py, so at
   * run time the raise itself fails with a NameError; either way the caller
   * gets an exception.
   */
  datatype IdError = EmptyString | NotIdentifier(id: String)

  /**
   * validIdentifier as written: the first character must be an ASCII letter
   * (an empty string fails on `idString[0]`), dashes become underscores, and
   * the result is refused when NO character was removed by the translation,
   * i.e. when every character is allowed, or when it is a reserved word.
   */
  function ValidIdentifier(s: String): (r: Result<String, IdError>)
    ensures |s| == 0 ==> r == Err(EmptyString)
    ensures |s| > 0 && !IsAsciiLetter(s[0]) ==> r == Err(NotIdentifier(s))
    ensures r.Ok? ==> r.value == FixID(s) && r.value !in Reserved
    ensures r.Ok? <==> |s| > 0 && IsAsciiLetter(s[0]) && !(forall i :: 0 <= i < |s| ==> AllowedIdChar(FixID(s)[i]))
  {
    if |s| == 0 then Err(EmptyString)
    else if !IsAsciiLetter(s[0]) then Err(NotIdentifier(s))
    else
      var t := FixID(s);
      ReservedAllowed(t);
      if |DisallowedChars(t)| == 0 || t in Reserved then Err(NotIdentifier(t))
      else Ok(t)
  }

  /** Every reserved word is made of allowed characters. */
  lemma ReservedAllowed(t: String)
    ensures t in Reserved ==> forall i :: 0 <= i < |t| ==> AllowedIdChar(t[i])
  {
  }

  /**
   * validIdentifier as its docstring describes it: refused when some
   * character is not allowed or the fixed string is a reserved word.
   */
  function ValidIdentifierIntended(s: String): (r: Result<String, IdError>)
    ensures r.Ok? <==> |s| > 0 && IsAsciiLetter(s[0])
                       && (forall i :: 0 <= i < |s| ==> AllowedIdChar(FixID(s)[i]))
                       && FixID(s) !in Reserved
    ensures r.Ok? ==> r.value == FixID(s)
  {
    if |s| == 0 then Err(EmptyString)
    else if !IsAsciiLetter(s[0]) then Err(NotIdentifier(s))
    else
      var t := FixID(s);
      if |DisallowedChars(t)| != 0 || t in Reserved then Err(NotIdentifier(t))
      else Ok(t)
  }

  /** The intended check accepts exactly letters, digits, '_' and '-' after a first letter, minus the reserved words. */
  lemma IntendedAccepts(s: String)
    requires |s| > 0 && IsAsciiLetter(s[0])
    requires forall i :: 0 <= i < |s| ==> AllowedIdChar(s[i]) || s[i] == '-'
    requires FixID(s) !in Reserved
    ensures ValidIdentifierIntended(s) == Ok(FixID(s))
  {
    var t := FixID(s);
    forall i | 0 <= i < |s| ensures AllowedIdChar(t[i]) {
      assert t[i] == (if s[i] == '-' then '_' else s[i]);
    }
  }

  /** As written and as intended never accept the same string. */
  lemma ValidIdentifierInverted(s: String)
    ensures !(ValidIdentifier(s).Ok? && ValidIdentifierIntended(s).Ok?)
  {
  }

  /** As written, a plain identifier such as "abc" is refused. */
  lemma ValidIdentifierRefusesPlain()
    ensures ValidIdentifier("abc") == Err(NotIdentifier("abc"))
    ensures ValidIdentifierIntended("abc") == Ok("abc")
  {
    assert FixID("abc") == "abc" by { FixIDUnchanged("abc"); }
  }
}
