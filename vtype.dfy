/**
 * Data types of the dataflow language (cpc/dataflow/vtype.py): the item-list
 * syntax `.name[3].sub` that addresses a part of a value, the type
 * inheritance tree, record members, and the literal converters of the bool
 * and int types.
 */
module VType {
  import opened Wrappers
  import opened Text

  // ================================================================ item lists

  /** One step of an item path: a member name or an array index. */
  datatype Item = Name(name: String) | Index(index: int)

  /** TypeErr is raised by the parser itself; ValueErr is Python's ValueError from `int()`. */
  datatype VTypeError = TypeErr | ValueErr

  /** The variables of parseItemList's character loop. */
  datatype ScanState = ScanState(ret: seq<Item>, cur: String, inSquareBrackets: bool, inDottedItem: bool)

  function Init(startDotted: bool): ScanState {
    ScanState([], "", false, startDotted)
  }

  /** A separator that ends a dotted item: `keywords.SubTypeSep` or `keywords.InstSep`. */
  predicate IsItemSep(c: char) { c == '.' || c == ':' }

  /** The item a closing ']' appends: '+' itself, or the bracket text read by `int()`. */
  function BracketItem(cur: String): Result<Item, VTypeError> {
    if Strip(cur) == "+" then Ok(Name("+"))
    else
      match ParseInt(cur)
      case None => Err(ValueErr)
      case Some(n) => Ok(Index(n))
  }

  /** What the loop body of parseItemList does with one character. */
  function Step(st: ScanState, c: char): Result<ScanState, VTypeError> {
    if st.inSquareBrackets then
      if c == ']' then
        match BracketItem(st.cur)
        case Err(e) => Err(e)
        case Ok(x) => Ok(ScanState(st.ret + [x], "", false, st.inDottedItem))
      else Ok(st.(cur := st.cur + [c]))
    else if st.inDottedItem then
      if IsItemSep(c) then Ok(st.(ret := st.ret + [Name(st.cur)], cur := ""))
      else if c == '[' then Ok(ScanState(st.ret + [Name(st.cur)], "", true, false))
      else Ok(st.(cur := st.cur + [c]))
    else
      if IsItemSep(c) then Ok(st.(inDottedItem := true, cur := ""))
      else if c == '[' then Ok(st.(inSquareBrackets := true, cur := ""))
      else Err(TypeErr)
  }

  /** The loop over the characters of `s` from position `i` on, stopping at the first error. */
  function RunFrom(st: ScanState, s: String, i: nat): Result<ScanState, VTypeError>
    requires i <= |s|
    decreases |s| - i
  {
    if i == |s| then Ok(st)
    else
      match Step(st, s[i])
      case Err(e) => Err(e)
      case Ok(next) => RunFrom(next, s, i + 1)
  }

  /** The whole character loop. */
  function Run(st: ScanState, s: String): Result<ScanState, VTypeError> {
    RunFrom(st, s, 0)
  }

  /** The code after the loop: flush a pending dotted item, refuse an open bracket. */
  function Finish(st: ScanState): Result<seq<Item>, VTypeError> {
    var ret := if st.inDottedItem && st.cur != "" then st.ret + [Name(st.cur)] else st.ret;
    if st.inSquareBrackets then Err(TypeErr) else Ok(ret)
  }

  /** parseItemList(itemStr, startDotted) as a function. */
  function ParseItems(itemStr: String, startDotted: bool): Result<seq<Item>, VTypeError> {
    match Run(Init(startDotted), itemStr)
    case Err(e) => Err(e)
    case Ok(st) => Finish(st)
  }

  /** parseItemList: a character loop over the string. */
  method ParseItemList(itemStr: String, startDotted: bool) returns (r: Result<seq<Item>, VTypeError>)
    ensures r == ParseItems(itemStr, startDotted)
  {
    var ret: seq<Item> := [];
    var inSquareBrackets := false;
    var inDottedItem := startDotted;
    var cur: String := "";
    var i := 0;
    while i < |itemStr|
      invariant 0 <= i <= |itemStr|
      invariant Run(Init(startDotted), itemStr) == RunFrom(ScanState(ret, cur, inSquareBrackets, inDottedItem), itemStr, i)
    {
      var c := itemStr[i];
      if inSquareBrackets {
        if c == ']' {
          if Strip(cur) == "+" {
            ret := ret + [Name("+")];
          } else {
            var n := ParseInt(cur);
            if n.None? {
              return Err(ValueErr);
            }
            ret := ret + [Index(n.value)];
          }
          cur := "";
          inSquareBrackets := false;
        } else {
          cur := cur + [c];
        }
      } else if inDottedItem {
        if c == '.' || c == ':' {
          ret := ret + [Name(cur)];
          cur := "";
        } else if c == '[' {
          ret := ret + [Name(cur)];
          cur := "";
          inSquareBrackets := true;
          inDottedItem := false;
        } else {
          cur := cur + [c];
        }
      } else {
        if c == '.' || c == ':' {
          inDottedItem := true;
          cur := "";
        } else if c == '[' {
          inSquareBrackets := true;
          cur := "";
        } else {
          return Err(TypeErr);
        }
      }
      i := i + 1;
    }
    if inDottedItem && cur != "" {
      ret := ret + [Name(cur)];
    }
    if inSquareBrackets {
      return Err(TypeErr);
    }
    return Ok(ret);
  }

  /** The text itemListStr emits for one item. */
  function ItemText(x: Item): String {
    match x
    case Index(n) => "[" + IntToString(n) + "]"
    case Name(s) => "." + s
  }

  /** itemListStr(items) as a function. */
  function ItemsText(items: seq<Item>): String {
    if |items| == 0 then "" else ItemsText(items[..|items| - 1]) + ItemText(items[|items| - 1])
  }

  /** itemListStr: appends one piece per item. */
  method ItemListStr(items: seq<Item>) returns (subItemStr: String)
    ensures subItemStr == ItemsText(items)
  {
    subItemStr := "";
    for i := 0 to |items|
      invariant subItemStr == ItemsText(items[..i])
    {
      assert items[..i + 1][..i] == items[..i];
      var piece := match items[i]
        case Index(n) => "[" + IntToString(n) + "]"
        case Name(s) => "." + s;
      subItemStr := subItemStr + piece;
    }
    assert items[..|items|] == items;
  }

  // ---------------------------------------------------------------- round trip

  /** A name that the printer and the parser agree on. */
  predicate NameOk(s: String) { |s| > 0 && '.' !in s && ':' !in s && '[' !in s }

  predicate ItemsOk(items: seq<Item>) {
    forall i :: 0 <= i < |items| ==> items[i].Name? ==> NameOk(items[i].name)
  }

  /** The items a state stands for once its pending dotted item is closed. */
  function Flush(st: ScanState): seq<Item> {
    st.ret + (if st.inDottedItem then [Name(st.cur)] else [])
  }

  function Then(r: Result<ScanState, VTypeError>, s: String): Result<ScanState, VTypeError> {
    match r
    case Err(e) => Err(e)
    case Ok(st) => Run(st, s)
  }

  lemma {:induction false} RunShift(st: ScanState, a: String, b: String, j: nat)
    requires j <= |b|
    ensures RunFrom(st, a + b, |a| + j) == RunFrom(st, b, j)
    decreases |b| - j
  {
    if j < |b| {
      assert (a + b)[|a| + j] == b[j];
      match Step(st, b[j])
      case Err(e) =>
      case Ok(next) =>
        assert RunFrom(st, a + b, |a| + j) == RunFrom(next, a + b, |a| + j + 1);
        RunShift(next, a, b, j + 1);
    }
  }

  lemma {:induction false} RunConcatFrom(st: ScanState, a: String, b: String, i: nat)
    requires i <= |a|
    ensures RunFrom(st, a + b, i) == Then(RunFrom(st, a, i), b)
    decreases |a| - i
  {
    if i < |a| {
      assert (a + b)[i] == a[i];
      match Step(st, a[i])
      case Err(e) =>
      case Ok(next) =>
        assert RunFrom(st, a + b, i) == RunFrom(next, a + b, i + 1);
        assert RunFrom(st, a, i) == RunFrom(next, a, i + 1);
        RunConcatFrom(next, a, b, i + 1);
    } else {
      RunShift(st, a, b, 0);
    }
  }

  /** Scanning a concatenation scans the second part from where the first left off. */
  lemma RunConcat(st: ScanState, a: String, b: String)
    ensures Run(st, a + b) == Then(Run(st, a), b)
  {
    RunConcatFrom(st, a, b, 0);
  }

  /** Scanning one character is one step. */
  lemma RunChar(st: ScanState, c: char)
    ensures Run(st, [c]) == Step(st, c)
  {
    assert [c][0] == c;
    match Step(st, c)
    case Err(e) =>
    case Ok(next) => assert RunFrom(next, [c], 1) == Ok(next);
  }

  lemma {:induction false} RunNameFrom(st: ScanState, s: String, i: nat)
    requires i <= |s| && !st.inSquareBrackets && st.inDottedItem
    requires '.' !in s && ':' !in s && '[' !in s
    ensures RunFrom(st.(cur := st.cur + s[..i]), s, i) == Ok(st.(cur := st.cur + s))
    decreases |s| - i
  {
    if i < |s| {
      var here := st.(cur := st.cur + s[..i]);
      var next := st.(cur := st.cur + s[..i + 1]);
      assert (st.cur + s[..i]) + [s[i]] == st.cur + s[..i + 1];
      assert Step(here, s[i]) == Ok(next);
      assert RunFrom(here, s, i) == RunFrom(next, s, i + 1);
      RunNameFrom(st, s, i + 1);
    } else {
      assert s[..i] == s;
    }
  }

  /** Inside a dotted item, characters that are no separator extend `cur`. */
  lemma RunName(st: ScanState, s: String)
    requires !st.inSquareBrackets && st.inDottedItem
    requires '.' !in s && ':' !in s && '[' !in s
    ensures Run(st, s) == Ok(st.(cur := st.cur + s))
  {
    RunNameFrom(st, s, 0);
    assert st.cur + s[..0] == st.cur;
  }

  lemma {:induction false} RunBracketFrom(st: ScanState, s: String, i: nat)
    requires i <= |s| && st.inSquareBrackets
    requires ']' !in s
    ensures RunFrom(st.(cur := st.cur + s[..i]), s, i) == Ok(st.(cur := st.cur + s))
    decreases |s| - i
  {
    if i < |s| {
      var here := st.(cur := st.cur + s[..i]);
      var next := st.(cur := st.cur + s[..i + 1]);
      assert (st.cur + s[..i]) + [s[i]] == st.cur + s[..i + 1];
      assert Step(here, s[i]) == Ok(next);
      assert RunFrom(here, s, i) == RunFrom(next, s, i + 1);
      RunBracketFrom(st, s, i + 1);
    } else {
      assert s[..i] == s;
    }
  }

  /** Inside square brackets, characters other than ']' extend `cur`. */
  lemma RunBracket(st: ScanState, s: String)
    requires st.inSquareBrackets
    requires ']' !in s
    ensures Run(st, s) == Ok(st.(cur := st.cur + s))
  {
    RunBracketFrom(st, s, 0);
    assert st.cur + s[..0] == st.cur;
  }

  /** What `int()` and the '+' test see between the brackets of `[n]`. */
  lemma IndexDigits(n: int)
    ensures ']' !in IntToString(n)
    ensures Strip(IntToString(n)) != "+"
    ensures ParseInt(IntToString(n)) == Some(n)
  {
    StripNoSpace(IntToString(n));
    ParseIntToString(n);
    IntToStringChars(n);
  }

  /** Scanning `.name` closes the pending item and starts a dotted item `name`. */
  lemma RunNameItem(st: ScanState, s: String)
    requires !st.inSquareBrackets && NameOk(s)
    ensures Run(st, "." + s) == Ok(ScanState(Flush(st), s, false, true))
  {
    var st1 := ScanState(Flush(st), "", false, true);
    assert st.ret + [] == st.ret;
    RunChar(st, '.');
    RunConcat(st, ".", s);
    RunName(st1, s);
    assert st1.cur + s == s;
  }

  /** Scanning `[n]` closes the pending item and appends the index. */
  lemma RunIndexItem(st: ScanState, n: int)
    requires !st.inSquareBrackets
    ensures Run(st, "[" + IntToString(n) + "]") == Ok(ScanState(Flush(st) + [Index(n)], "", false, false))
  {
    IndexDigits(n);
    assert BracketItem(IntToString(n)) == Ok(Index(n));
    RunBracketed(st, IntToString(n), Index(n));
  }

  /** Scanning `[d]` outside brackets closes the pending item and appends what ']' reads from `d`. */
  lemma RunBracketed(st: ScanState, d: String, x: Item)
    requires !st.inSquareBrackets && ']' !in d && BracketItem(d) == Ok(x)
    ensures Run(st, "[" + d + "]") == Ok(ScanState(Flush(st) + [x], "", false, false))
  {
    var st1 := ScanState(Flush(st), "", true, false);
    assert st.ret + [] == st.ret;
    RunChar(st, '[');
    assert Run(st, "[") == Ok(st1);
    RunBracketClose(st1, d, x);
    RunConcat(st, "[", d + "]");
    assert "[" + d + "]" == "[" + (d + "]");
  }

  /** Inside an empty bracket, `d]` reads `d` and the closing bracket appends what it reads. */
  lemma RunBracketClose(st1: ScanState, d: String, x: Item)
    requires st1.inSquareBrackets && st1.cur == "" && !st1.inDottedItem
    requires ']' !in d && BracketItem(d) == Ok(x)
    ensures Run(st1, d + "]") == Ok(ScanState(st1.ret + [x], "", false, false))
  {
    var st2 := st1.(cur := d);
    RunBracket(st1, d);
    assert st1.cur + d == d;
    RunChar(st2, ']');
    RunConcat(st1, d, "]");
  }

  /** Scanning one item's text from a state outside brackets adds exactly that item. */
  lemma RunItem(st: ScanState, x: Item)
    requires !st.inSquareBrackets
    requires x.Name? ==> NameOk(x.name)
    ensures Run(st, ItemText(x)).Ok?
    ensures var st' := Run(st, ItemText(x)).value;
      !st'.inSquareBrackets && Flush(st') == Flush(st) + [x]
      && (st'.inDottedItem ==> st'.cur != "")
  {
    match x
    case Name(s) =>
      RunNameItem(st, s);
    case Index(n) =>
      RunIndexItem(st, n);
      assert Flush(st) + [Index(n)] + [] == Flush(st) + [x];
  }

  /** Scanning the text of a list of items adds exactly those items. */
  lemma {:induction false} RunItems(st: ScanState, items: seq<Item>)
    requires !st.inSquareBrackets && ItemsOk(items)
    ensures Run(st, ItemsText(items)).Ok?
    ensures var st' := Run(st, ItemsText(items)).value;
      !st'.inSquareBrackets && Flush(st') == Flush(st) + items
      && (|items| > 0 && st'.inDottedItem ==> st'.cur != "")
    decreases |items|
  {
    if |items| == 0 {
      assert ItemsText(items) == "";
      assert Run(st, "") == Ok(st);
      assert Flush(st) + items == Flush(st);
    } else {
      var init := items[..|items| - 1];
      var x := items[|items| - 1];
      assert ItemsOk(init) by {
        forall i | 0 <= i < |init| && init[i].Name? ensures NameOk(init[i].name) {
          assert init[i] == items[i];
        }
      }
      assert x.Name? ==> NameOk(x.name);
      RunItems(st, init);
      var mid := Run(st, ItemsText(init)).value;
      assert ItemsText(items) == ItemsText(init) + ItemText(x);
      RunConcat(st, ItemsText(init), ItemText(x));
      RunItem(mid, x);
      LastSplit(items);
      assert Flush(st) + items == (Flush(st) + init) + [x];
    }
  }

  /** Once nothing is pending, closing the scan yields the flushed items. */
  lemma FinishFlush(st: ScanState)
    requires !st.inSquareBrackets && (st.inDottedItem ==> st.cur != "")
    ensures Finish(st) == Ok(Flush(st))
  {
    assert st.ret + [] == st.ret;
  }

  /**
   * Round trip: the printed form of a non-empty item list parses back to the
   * list, preceded by the empty name before the leading separator.
   */
  lemma ParseItemListStr(items: seq<Item>)
    requires |items| > 0 && ItemsOk(items)
    ensures ParseItems(ItemsText(items), true) == Ok([Name("")] + items)
  {
    RunItems(Init(true), items);
    var st := Run(Init(true), ItemsText(items)).value;
    FinishFlush(st);
    assert Flush(Init(true)) == [Name("")];
    assert Flush(st) == [Name("")] + items;
  }

  lemma {:induction false} ItemsTextCons(items: seq<Item>)
    requires |items| > 0
    ensures ItemsText(items) == ItemText(items[0]) + ItemsText(items[1..])
    decreases |items|
  {
    if |items| > 1 {
      var init := items[..|items| - 1];
      ItemsTextCons(init);
      assert init[1..] == items[1..][..|items| - 2];
    } else {
      assert items[1..] == [];
    }
  }

  /** A run that ends with nothing pending closes to the flushed items. */
  lemma ParseItemsFromRun(s: String, fin: ScanState)
    requires Run(Init(true), s) == Ok(fin)
    requires !fin.inSquareBrackets && (fin.inDottedItem ==> fin.cur != "")
    ensures ParseItems(s, true) == Ok(Flush(fin))
  {
    FinishFlush(fin);
  }

  /** A name followed by the text of further items parses to that name and those items. */
  lemma RunAfterName(x: String, rest: seq<Item>)
    requires NameOk(x) && ItemsOk(rest)
    ensures ParseItems(x + ItemsText(rest), true) == Ok([Name(x)] + rest)
  {
    var st1 := Init(true).(cur := x);
    assert Init(true).cur + x == x;
    RunName(Init(true), x);
    RunConcat(Init(true), x, ItemsText(rest));
    RunItems(st1, rest);
    var fin := Run(st1, ItemsText(rest)).value;
    assert Run(Init(true), x + ItemsText(rest)) == Ok(fin);
    if |rest| == 0 {
      assert Run(st1, "") == Ok(st1);
    }
    assert Flush(st1) == [Name(x)];
    ParseItemsFromRun(x + ItemsText(rest), fin);
  }

  /**
   * The text after the leading '.' of a list that starts with a name parses
   * back to the list itself (how splitIOName reads a printed name).
   */
  lemma ParseAfterDot(items: seq<Item>)
    requires |items| > 0 && items[0].Name? && ItemsOk(items)
    ensures ItemsText(items) == "." + items[0].name + ItemsText(items[1..])
    ensures ParseItems(items[0].name + ItemsText(items[1..]), true) == Ok(items)
  {
    var rest := items[1..];
    ItemsTextCons(items);
    assert ItemsOk(rest) by {
      forall i | 0 <= i < |rest| && rest[i].Name? ensures NameOk(rest[i].name) {
        assert rest[i] == items[i + 1];
      }
    }
    RunAfterName(items[0].name, rest);
    assert items == [Name(items[0].name)] + rest;
  }

  /** parseItemList("a.b[3]") is ["a", "b", 3]. */
  lemma ParseExample()
    ensures ParseItems("a.b[3]", true) == Ok([Name("a"), Name("b"), Index(3)])
  {
    var items := [Name("a"), Name("b"), Index(3)];
    assert ItemsOk(items);
    ParseAfterDot(items);
    var rest := items[1..];
    assert rest == [Name("b"), Index(3)];
    assert rest[..1] == [Name("b")];
    assert [Name("b")][..0] == [];
    assert ItemsText([Name("b")]) == ".b";
    assert IntToString(3) == "3";
    assert ItemText(Index(3)) == "[3]";
    assert ItemsText(rest) == ".b" + "[3]";
    assert "a" + (".b" + "[3]") == "a.b[3]";
  }

  /** The empty string is the empty list; a trailing '.' adds no empty name. */
  lemma ParseEmpty()
    ensures ParseItems("", true) == Ok([])
    ensures ParseItems("a.", true) == Ok([Name("a")])
  {
    var s := "a.";
    var s1 := ScanState([], "a", false, true);
    var s2 := ScanState([Name("a")], "", false, true);
    assert Step(Init(true), 'a') == Ok(s1) by { assert "" + ['a'] == "a"; }
    assert Step(s1, '.') == Ok(s2) by { assert [] + [Name("a")] == [Name("a")]; }
    assert RunFrom(s2, s, 2) == Ok(s2);
    assert RunFrom(s1, s, 1) == Ok(s2);
  }

  lemma BracketThree()
    ensures BracketItem("3") == Ok(Index(3))
  {
    IndexDigits(3);
    assert IntToString(3) == "3";
  }

  /** A sign, whitespace and digits between brackets are an index: `int()` skips the whitespace. */
  lemma BracketSpaced(sign: char, ws: String, d: String)
    requires sign == '-' || sign == '+'
    requires forall i :: 0 <= i < |ws| ==> IsSpace(ws[i])
    requires |d| > 0 && AllDigits(d)
    ensures BracketItem([sign] + ws + d) == Ok(Index(if sign == '-' then -(DigitsValue(d) as int) else DigitsValue(d)))
  {
    var s := [sign] + ws + d;
    assert s[0] == sign && s[|s| - 1] == d[|d| - 1];
    assert !IsSpace(d[|d| - 1]);
    StripUnchanged(s);
    assert Strip(s) != "+" by { assert |Strip(s)| >= 2; }
    ParseIntSpaced(sign, ws, d);
  }

  /** "- 1" between brackets is the index -1. */
  lemma BracketSpacedSign()
    ensures BracketItem("- 1") == Ok(Index(-1))
  {
    assert ['-'] + " " + "1" == "- 1";
    assert AllDigits("1") && DigitsValue("1") == 1;
    BracketSpaced('-', " ", "1");
  }

  /** A name followed by one bracketed item parses to that name and the item. */
  lemma ParseNameBracket(name: String, d: String, x: Item)
    requires '.' !in name && ':' !in name && '[' !in name
    requires ']' !in d && BracketItem(d) == Ok(x)
    ensures ParseItems(name + "[" + d + "]", true) == Ok([Name(name), x])
  {
    var st := Init(true);
    RunName(st, name);
    var st1 := st.(cur := st.cur + name);
    assert st1.cur == name;
    RunBracketed(st1, d, x);
    var st2 := ScanState(Flush(st1) + [x], "", false, false);
    RunConcat(st, name, "[" + d + "]");
    assert name + "[" + d + "]" == name + ("[" + d + "]");
    assert Flush(st1) == [Name(name)];
    FinishFlush(st2);
    assert Run(Init(true), name + "[" + d + "]") == Ok(st2);
    assert st2.ret == [Name(name), x];
  }

  /** parseItemList("a[- 1]") is ["a", -1]. */
  lemma ParseSpacedIndex()
    ensures ParseItems("a[- 1]", true) == Ok([Name("a"), Index(-1)])
  {
    assert "a" + "[" + "- 1" + "]" == "a[- 1]";
    assert ']' !in "- 1";
    BracketSpacedSign();
    ParseNameBracket("a", "- 1", Index(-1));
  }

  lemma BracketLetter()
    ensures BracketItem("b") == Err(ValueErr)
  {
    StripNoSpace("b");
    assert Strip("b") == "b";
    assert !AllDigits("b");
  }

  /** An unclosed bracket is refused with TypeErr. */
  lemma ParseUnclosed()
    ensures ParseItems("a[3", true) == Err(TypeErr)
  {
    var u := "a[3";
    var u1 := ScanState([], "a", false, true);
    var u2 := ScanState([Name("a")], "", true, false);
    var u3 := ScanState([Name("a")], "3", true, false);
    assert u[0] == 'a' && u[1] == '[' && u[2] == '3';
    assert Step(Init(true), 'a') == Ok(u1) by { assert "" + ['a'] == "a"; }
    assert Step(u1, '[') == Ok(u2) by { assert [] + [Name("a")] == [Name("a")]; }
    assert Step(u2, '3') == Ok(u3) by { assert "" + ['3'] == "3"; }
    assert RunFrom(u3, u, 3) == Ok(u3);
    assert RunFrom(u2, u, 2) == Ok(u3);
    assert RunFrom(u1, u, 1) == Ok(u3);
    assert RunFrom(Init(true), u, 0) == Ok(u3);
  }

  /** A character other than a separator after ']' is refused with TypeErr. */
  lemma ParseTextAfterBracket()
    ensures ParseItems("[3]b", true) == Err(TypeErr)
  {
    BracketThree();
    assert ']' !in "3";
    TextAfterBracket("3", Index(3), 'b');
    assert "[3]b" == "[" + "3" + "]" + "b";
  }

  /** After a closed bracket outside a dotted item, a character other than a separator or '[' is refused. */
  lemma TextAfterBracket(d: String, x: Item, c: char)
    requires ']' !in d && BracketItem(d) == Ok(x) && !IsItemSep(c) && c != '['
    ensures ParseItems("[" + d + "]" + [c], true) == Err(TypeErr)
  {
    RunBracketed(Init(true), d, x);
    var st := ScanState(Flush(Init(true)) + [x], "", false, false);
    RunConcat(Init(true), "[" + d + "]", [c]);
    RunChar(st, c);
  }

  /** Bracket text that `int()` refuses raises ValueError. */
  lemma ParseBadIndex()
    ensures ParseItems("[b]", true) == Err(ValueErr)
  {
    var w := "[b]";
    var b1 := ScanState([Name("")], "", true, false);
    var w2 := ScanState([Name("")], "b", true, false);
    assert w[0] == '[' && w[1] == 'b' && w[2] == ']';
    assert Step(Init(true), '[') == Ok(b1) by { assert [] + [Name("")] == [Name("")]; }
    assert Step(b1, 'b') == Ok(w2) by { assert "" + ['b'] == "b"; }
    BracketLetter();
    assert Step(w2, ']') == Err(ValueErr);
    assert RunFrom(w2, w, 2) == Err(ValueErr);
    assert RunFrom(b1, w, 1) == Err(ValueErr);
    assert RunFrom(Init(true), w, 0) == Err(ValueErr);
  }

  // ================================================================ types

  /** A record member: its type, name and flags, and its description. */
  datatype Member = Member(tp: Type, name: String, opt: bool, isConst: bool, complete: bool, desc: Option<String>)

  /**
   * A data type.  `parent` is fixed at construction, so the inheritance tree
   * only grows at the leaves; `depth` (the length of the parent chain) makes
   * that explicit.  Record types keep their members as an ordered dictionary:
   * `keys` in insertion order and `members` by key.
   */
  class Type {
    const name: String
    const parent: Type?
    const depth: nat
    var keys: seq<String>
    var members: map<String, Member>

    ghost predicate Valid()
      decreases depth
    {
      parent != null ==> parent.depth < depth && parent.Valid()
    }

    constructor (name: String, parent: Type?)
      requires parent != null ==> parent.Valid()
      ensures Valid() && this.name == name && this.parent == parent
      ensures keys == [] && members == map[]
    {
      this.name := name;
      this.parent := parent;
      depth := if parent == null then 0 else parent.depth + 1;
      keys := [];
      members := map[];
    }

    /** The type and its ancestors. */
    ghost function Ancestors(): set<Type>
      requires Valid()
      decreases depth
    {
      {this} + (if parent == null then {} else parent.Ancestors())
    }

    /** isSubtype as a function: `t` is on the parent chain starting here. */
    function SubtypeOf(t: Type): bool
      requires Valid()
      decreases depth
    {
      this == t || (parent != null && parent.SubtypeOf(t))
    }

    /** isSubtype: walks the parent pointers. */
    method IsSubtype(t: Type) returns (r: bool)
      requires Valid()
      ensures r == SubtypeOf(t)
    {
      var cur: Type? := this;
      while cur != null
        invariant cur != null ==> cur.Valid() && SubtypeOf(t) == cur.SubtypeOf(t)
        invariant cur == null ==> !SubtypeOf(t)
        decreases if cur == null then 0 else cur.depth + 1
      {
        if cur == t {
          return true;
        }
        cur := cur.parent;
      }
      return false;
    }

    /** Every ancestor sits no deeper than the type itself. */
    lemma {:induction false} AncestorsShallower()
      requires Valid()
      ensures forall t :: t in Ancestors() ==> t.depth <= depth && t.Valid()
      decreases depth
    {
      if parent != null {
        parent.AncestorsShallower();
      }
    }

    /** Being a subtype is being among the ancestors. */
    lemma {:induction false} SubtypeAncestors(t: Type)
      requires Valid()
      ensures SubtypeOf(t) <==> t in Ancestors()
      decreases depth
    {
      if parent != null {
        parent.SubtypeAncestors(t);
      }
    }

    /** Any type is a subtype of itself. */
    lemma SubtypeReflexive()
      requires Valid()
      ensures SubtypeOf(this)
    {
    }

    /** A subtype of a subtype is a subtype. */
    lemma {:induction false} SubtypeTransitive(u: Type, w: Type)
      requires Valid() && u.Valid()
      requires SubtypeOf(u) && u.SubtypeOf(w)
      ensures SubtypeOf(w)
      decreases depth
    {
      if this != u {
        parent.SubtypeTransitive(u, w);
      }
    }

    /** Two types that are subtypes of each other are the same type. */
    lemma {:induction false} SubtypeAntisymmetric(u: Type)
      requires Valid() && u.Valid()
      requires SubtypeOf(u) && u.SubtypeOf(this)
      ensures u == this
    {
      if u != this {
        ShallowerStrict(u);
        u.ShallowerStrict(this);
        assert false;
      }
    }

    /** A strict ancestor sits strictly higher. */
    lemma {:induction false} ShallowerStrict(u: Type)
      requires Valid() && SubtypeOf(u) && u != this
      ensures u.depth < depth
      decreases depth
    {
      parent.SubtypeAncestors(u);
      parent.AncestorsShallower();
    }

    // ------------------------------------------------------------ record members

    /** The ordered dictionary is well formed: distinct keys, the same as the map's. */
    ghost predicate MembersOk()
      reads this
    {
      (forall i, j :: 0 <= i < j < |keys| ==> keys[i] != keys[j])
      && (forall k :: k in members <==> k in keys)
    }

    /** Every ancestor's ordered dictionary is well formed. */
    ghost predicate ChainOk()
      requires Valid()
      reads Ancestors()
      decreases depth
    {
      MembersOk() && (parent != null ==> parent.ChainOk())
    }

    /** hasMembers: this record or an inherited record has members. */
    function HasMembers(recordType: Type): bool
      requires Valid()
      reads Ancestors()
      decreases depth
    {
      (parent != null && parent.SubtypeOf(recordType) && parent.HasMembers(recordType)) || |keys| > 0
    }

    /** getMemberKeys: the inherited record's keys first, then this record's. */
    function MemberKeys(recordType: Type): seq<String>
      requires Valid()
      reads Ancestors()
      decreases depth
    {
      (if parent != null && parent.SubtypeOf(recordType) && parent.HasMembers(recordType)
       then parent.MemberKeys(recordType) else []) + keys
    }

    /**
     * hasMember.  The source calls `self.parent.isSubtype` unconditionally;
     * a parentless type here answers false where Python would fail.
     */
    function HasMember(name: String, recordType: Type): bool
      requires Valid()
      reads Ancestors()
      decreases depth
    {
      name in members || (parent != null && parent.SubtypeOf(recordType) && parent.HasMember(name, recordType))
    }

    /** hasMember agrees with getMemberKeys, and hasMembers with its emptiness. */
    lemma {:induction false} HasMemberKeys(name: String, recordType: Type)
      requires Valid() && ChainOk()
      ensures HasMember(name, recordType) <==> name in MemberKeys(recordType)
      ensures HasMembers(recordType) <==> |MemberKeys(recordType)| > 0
      decreases depth
    {
      if parent != null {
        parent.HasMemberKeys(name, recordType);
      }
    }

    /** addMember: overwrite an existing member's type and flags in place, or append a new member. */
    method AddMember(name: String, vtype: Type, opt: bool, isConst: bool, complete: bool)
      requires Valid() && MembersOk()
      modifies this
      ensures MembersOk()
      ensures name in old(members) ==>
        keys == old(keys)
        && members == old(members)[name := old(members)[name].(tp := vtype, opt := opt, isConst := isConst, complete := complete)]
      ensures name !in old(members) ==>
        keys == old(keys) + [name]
        && members == old(members)[name := Member(vtype, name, opt, isConst, complete, None)]
      ensures forall rt: Type :: HasMember(name, rt)
      ensures forall rt: Type :: old(allocated(rt)) ==> MemberKeys(rt) == old(MemberKeys(rt)) + (if name in old(members) then [] else [name])
    {
      if parent != null {
        parent.AncestorsShallower();
      }
      if name in members {
        var m := members[name];
        members := members[name := m.(tp := vtype, opt := opt, isConst := isConst, complete := complete)];
      } else {
        keys := keys + [name];
        members := members[name := Member(vtype, name, opt, isConst, complete, None)];
      }
    }
  }

  // ================================================================ literals

  /** BoolType.valueFromLiteral: "true"/"false" in any case, or "1"/"0". */
  function BoolFromLiteral(s: String): (r: Result<bool, VTypeError>)
    ensures r == Ok(true) <==> Lower(s) == "true" || s == "1"
    ensures r == Ok(false) <==> Lower(s) != "true" && s != "1" && (Lower(s) == "false" || s == "0")
    ensures r.Err? ==> r.error == TypeErr
  {
    if Lower(s) == "true" || s == "1" then Ok(true)
    else if Lower(s) == "false" || s == "0" then Ok(false)
    else Err(TypeErr)
  }

  /** BoolType.valueToLiteral. */
  function BoolToLiteral(b: bool): String {
    if b then "true" else "false"
  }

  lemma BoolLiteralRoundTrip(b: bool)
    ensures BoolFromLiteral(BoolToLiteral(b)) == Ok(b)
  {
    assert Lower("true") == "true";
    assert Lower("false") == "false";
  }

  /** Upper-case spellings are accepted; other words are refused. */
  lemma BoolLiteralExamples()
    ensures BoolFromLiteral("TRUE") == Ok(true)
    ensures BoolFromLiteral("False") == Ok(false)
    ensures BoolFromLiteral("yes") == Err(TypeErr)
  {
    assert Lower("TRUE") == "true";
    assert Lower("False") == "false";
    assert Lower("yes") == "yes";
  }

  /** IntType.valueFromLiteral: Python `int()`, its ValueError turned into TypeErr. */
  function IntFromLiteral(s: String): (r: Result<int, VTypeError>)
    ensures r.Ok? <==> ParseInt(s).Some?
    ensures r.Ok? ==> r.value == ParseInt(s).value
    ensures r.Err? ==> r.error == TypeErr
  {
    match ParseInt(s)
    case None => Err(TypeErr)
    case Some(n) => Ok(n)
  }

  /** IntType.valueToLiteral: `"%d" % value`. */
  function IntToLiteral(n: int): String {
    IntToString(n)
  }

  /** `int("- 5")` is -5 in Python 2, so the literal "- 5" is accepted. */
  lemma IntLiteralSpacedSign()
    ensures IntFromLiteral("- 5") == Ok(-5)
  {
    ParseIntMinusSpaceFive();
  }

  lemma IntLiteralRoundTrip(n: int)
    ensures IntFromLiteral(IntToLiteral(n)) == Ok(n)
  {
    ParseIntToString(n);
  }
}
