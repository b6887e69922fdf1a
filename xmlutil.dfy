/**
 * Reading a boolean XML attribute (cpc/util/xmlutil.py): "1", "yes" and
 * "true" in any letter case mean true, "0", "no" and "false" mean false, an
 * absent attribute is false, and anything else is an error.
 */
module XmlUtil {
  import opened Wrappers
  import opened Text

  /** CpcError: attribute `name` holds `value` (lower-cased), neither true nor false. */
  datatype AttrError = NeitherTrueNorFalse(name: String, value: String)

  predicate TrueWord(v: String) { v == "1" || v == "yes" || v == "true" }

  predicate FalseWord(v: String) { v == "0" || v == "no" || v == "false" }

  /** getBooleanAttribute(attrs, name), with the element's attributes as a map. */
  function GetBooleanAttribute(attrs: map<String, String>, name: String): (r: Result<bool, AttrError>)
    ensures name !in attrs ==> r == Ok(false)
    ensures name in attrs ==>
      && (r == Ok(true) <==> TrueWord(Lower(attrs[name])))
      && (r == Ok(false) <==> FalseWord(Lower(attrs[name])))
      && (r.Err? ==> r.error == NeitherTrueNorFalse(name, Lower(attrs[name])))
  {
    if name !in attrs then Ok(false)
    else
      var v := Lower(attrs[name]);
      if TrueWord(v) then Ok(true)
      else if FalseWord(v) then Ok(false)
      else Err(NeitherTrueNorFalse(name, v))
  }

  /** The letter case of the value does not matter. */
  lemma CaseInsensitive(attrs: map<String, String>, name: String, v: String, w: String)
    requires Lower(v) == Lower(w)
    ensures GetBooleanAttribute(attrs[name := v], name) == GetBooleanAttribute(attrs[name := w], name)
  {
  }

  /** The text written for a boolean attribute. */
  function BoolText(b: bool): String {
    if b then "true" else "false"
  }

  /** A written boolean, in any letter case, reads back as itself. */
  lemma {:induction false} BoolTextRoundTrip(attrs: map<String, String>, name: String, b: bool, v: String)
    requires Lower(v) == BoolText(b)
    ensures GetBooleanAttribute(attrs[name := v], name) == Ok(b)
  {
    if b {
      assert !FalseWord("true");
    } else {
      assert !TrueWord("false");
    }
  }

  /** Upper-case "YES" reads as true. */
  lemma UpperCaseYes(attrs: map<String, String>, name: String)
    ensures GetBooleanAttribute(attrs[name := "YES"], name) == Ok(true)
  {
    assert Lower("YES") == "yes";
  }
}
