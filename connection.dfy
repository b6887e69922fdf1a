/**
 * Connections between instance inputs and outputs of a dataflow network
 * (cpc/dataflow/connection.py): the I/O name syntax
 * `instance:direction.item[3]`, its printers, and the check that a
 * connection has either a source instance or an initial value.
 */
module Connection {
  import opened Wrappers
  import opened Text
  import opened Keywords
  import opened VType

  /** The four I/O directions of cpc/dataflow/function_io.py. */
  datatype IODir = Inputs | Outputs | SubnetInputs | SubnetOutputs

  /** `str(direction)`: the direction's keyword. */
  function DirName(d: IODir): String {
    match d
    case Inputs => In
    case Outputs => Out
    case SubnetInputs => SubIn
    case SubnetOutputs => SubOut
  }

  /** Why a name is refused: ConnError, or the TypeErr/ValueError of the item parser. */
  datatype ConnError =
    | UnexpectedDirection
    | ExternalOnNonSelf
    | Ambiguous
    | SpecifierSyntax
    | ItemError(e: VTypeError)
    | BothEmpty
    | BothSet

  /** splitIOName's result: instance name, direction (None when implied), item list. */
  datatype IOName = IOName(instance: String, dir: Option<IODir>, items: seq<Item>)

  predicate DirKeyword(s: String) { s == In || s == Out || s == ExtIn || s == ExtOut || s == SubIn || s == SubOut }

  /**
   * The direction named by the specifier `dirnm` after the last ':' of the
   * instance part, for the instance `instance`.
   */
  function DirectionOf(instance: String, dirnm: String, expected: Option<String>): (r: Result<Option<IODir>, ConnError>)
    // an explicit direction must be the expected one
    ensures DirKeyword(dirnm) && expected.Some? && dirnm != expected.value ==> r == Err(UnexpectedDirection)
    // external I/O exists only on 'self'
    ensures (dirnm == ExtIn || dirnm == ExtOut) && instance != Self ==> r.Err?
    // no keyword: ambiguous without an expected direction, implied (None) with one
    ensures !DirKeyword(dirnm) && expected.None? ==> r == Err(Ambiguous)
    ensures r == Ok(None) <==> !DirKeyword(dirnm) && expected.Some? && dirnm == ""
    // 'in'/'out' address the subnet side of 'self' and the outer side of other instances
    ensures r.Ok? && r.value.Some? && (dirnm == In || dirnm == Out) ==>
      (r.value.value == SubnetInputs || r.value.value == SubnetOutputs) == (instance == Self)
    // 'sub_in'/'sub_out' are the subnet directions whatever the instance
    ensures r.Ok? && (dirnm == SubIn || dirnm == SubOut) ==> r.value == Some(if dirnm == SubIn then SubnetInputs else SubnetOutputs)
    // an input keyword gives an input direction
    ensures r.Ok? && r.value.Some? ==>
      ((r.value.value == Inputs || r.value.value == SubnetInputs) <==> (dirnm == In || dirnm == ExtIn || dirnm == SubIn))
  {
    if dirnm == In || dirnm == Out then
      if expected.Some? && dirnm != expected.value then Err(UnexpectedDirection)
      else if instance != Self then Ok(Some(if dirnm == In then Inputs else Outputs))
      else Ok(Some(if dirnm == In then SubnetInputs else SubnetOutputs))
    else if dirnm == ExtIn || dirnm == ExtOut then
      if expected.Some? && dirnm != expected.value then Err(UnexpectedDirection)
      else if instance != Self then Err(ExternalOnNonSelf)
      else Ok(Some(if dirnm == ExtIn then Inputs else Outputs))
    else if dirnm == SubIn || dirnm == SubOut then
      if expected.Some? && dirnm != expected.value then Err(UnexpectedDirection)
      else Ok(Some(if dirnm == SubIn then SubnetInputs else SubnetOutputs))
    else if expected.None? then Err(Ambiguous)
    else if dirnm != "" then Err(SpecifierSyntax)
    else Ok(None)
  }

  /**
   * splitIOName(name, expectedDirection): the text before the first '.' is
   * the instance part, split at its last ':' into instance and direction
   * specifier (without a ':' both are the whole part); the text after the
   * first '.' is parsed as an item list.  Direction errors are raised before
   * the item list is parsed.
   */
  function SplitIOName(name: String, expected: Option<String>): (r: Result<IOName, ConnError>)
    ensures r.Ok? ==> '.' !in r.value.instance
    ensures '.' !in name ==> (r.Ok? ==> r.value.items == [])
  {
    var parts := SplitFirst(name, '.');
    var spec := RSplitLast(parts.0, ':');
    var instance := spec.0.GetOr(spec.1);
    assert '.' !in instance by {
      if spec.0.Some? {
        assert parts.0 == instance + [':'] + spec.1;
        assert forall i :: 0 <= i < |instance| ==> instance[i] == parts.0[i];
      }
    }
    match DirectionOf(instance, spec.1, expected)
    case Err(e) => Err(e)
    case Ok(dir) =>
      match parts.1
      case None => Ok(IOName(instance, dir, []))
      case Some(itemText) =>
        match ParseItems(itemText, true)
        case Err(e) => Err(ItemError(e))
        case Ok(items) => Ok(IOName(instance, dir, items))
  }

  /** The specifier srcString/dstString write for a direction of `instance`. */
  function DirString(instance: String, d: IODir): String {
    if instance == Self then
      match d
      case Inputs => ExtIn
      case Outputs => ExtOut
      case SubnetInputs => In
      case SubnetOutputs => Out
    else DirName(d)
  }

  /** The printed direction is read back as the same direction. */
  lemma DirStringRoundTrip(instance: String, d: IODir)
    ensures DirectionOf(instance, DirString(instance, d), None) == Ok(Some(d))
  {
  }

  /** The instance:specifier part of a printed end point. */
  function EndString(instance: String, d: IODir, items: seq<Item>): String {
    instance + ":" + DirString(instance, d) + ItemsText(items)
  }

  predicate NoDot(s: String) { '.' !in s }

  lemma {:induction false} ItemsTextNoDot(items: seq<Item>)
    requires |items| == 0 || items[0].Name?
    ensures |items| == 0 ==> ItemsText(items) == ""
    ensures |items| > 0 && ItemsOk(items) ==> ItemsText(items) == "." + items[0].name + ItemsText(items[1..])
  {
    if |items| > 0 && ItemsOk(items) {
      ParseAfterDot(items);
    }
  }

  /**
   * Round trip: a printed end point splits back into its instance, direction
   * and items, when the instance name has no '.' and the item list is empty
   * or starts with a well-formed name.
   */
  lemma SplitEndString(instance: String, d: IODir, items: seq<Item>)
    requires NoDot(instance)
    requires ItemsOk(items) && (|items| == 0 || items[0].Name?)
    ensures SplitIOName(EndString(instance, d, items), None) == Ok(IOName(instance, Some(d), items))
  {
    var ds := DirString(instance, d);
    LastSplit(instance, ds);
    DirStringRoundTrip(instance, d);
    if |items| == 0 {
      SplitEndNoItems(instance, d, items);
    } else {
      SplitEndItems(instance, d, items);
    }
  }

  lemma SplitEndNoItems(instance: String, d: IODir, items: seq<Item>)
    requires NoDot(instance) && |items| == 0
    requires RSplitLast(instance + [':'] + DirString(instance, d), ':') == (Some(instance), DirString(instance, d))
    requires DirectionOf(instance, DirString(instance, d), None) == Ok(Some(d))
    ensures SplitIOName(EndString(instance, d, items), None) == Ok(IOName(instance, Some(d), items))
  {
    var head := instance + [':'] + DirString(instance, d);
    assert ItemsText(items) == "";
    assert EndString(instance, d, items) == head;
    DirStringNoDot(instance, d);
    DotlessSpec(instance, DirString(instance, d));
  }

  lemma DirStringNoDot(instance: String, d: IODir)
    ensures NoDot(DirString(instance, d))
  {
  }

  /** `instance:spec` with no '.' in either part has no item list to cut off. */
  lemma DotlessSpec(instance: String, spec: String)
    requires NoDot(instance) && NoDot(spec)
    ensures NoDot(instance + [':'] + spec)
    ensures SplitFirst(instance + [':'] + spec, '.') == (instance + [':'] + spec, None)
  {
    var s := instance + [':'] + spec;
    assert NoDot(s);
  }

  lemma SplitEndItems(instance: String, d: IODir, items: seq<Item>)
    requires NoDot(instance) && |items| > 0 && items[0].Name? && ItemsOk(items)
    requires RSplitLast(instance + [':'] + DirString(instance, d), ':') == (Some(instance), DirString(instance, d))
    requires DirectionOf(instance, DirString(instance, d), None) == Ok(Some(d))
    ensures SplitIOName(EndString(instance, d, items), None) == Ok(IOName(instance, Some(d), items))
  {
    var head := instance + [':'] + DirString(instance, d);
    var tail := items[0].name + ItemsText(items[1..]);
    PrintedItems(instance, d, items);
    FirstSplit(head, tail);
  }

  /** The printed end point, cut at the '.' that starts its first item. */
  lemma PrintedItems(instance: String, d: IODir, items: seq<Item>)
    requires NoDot(instance) && |items| > 0 && items[0].Name? && ItemsOk(items)
    ensures NoDot(instance + [':'] + DirString(instance, d))
    ensures EndString(instance, d, items) == (instance + [':'] + DirString(instance, d)) + ['.'] + (items[0].name + ItemsText(items[1..]))
    ensures ParseItems(items[0].name + ItemsText(items[1..]), true) == Ok(items)
  {
    ParseAfterDot(items);
    Concat3(instance, ":", DirString(instance, d), ItemsText(items));
    Concat3(".", items[0].name, ItemsText(items[1..]), []);
  }

  lemma Concat3(a: String, b: String, c: String, e: String)
    ensures a + b + c + e == (a + b + c) + e
    ensures a + b + c == a + (b + c)
  {
  }

  lemma FirstSplit(head: String, tail: String)
    requires NoDot(head)
    ensures SplitFirst(head + ['.'] + tail, '.') == (head, Some(tail))
  {
    var s := head + ['.'] + tail;
    var j := Find(s, '.');
    assert s[|head|] == '.';
    assert j.Some? && j.value == |head|;
    assert s[..|head|] == head && s[|head| + 1..] == tail;
  }

  lemma LastSplit(instance: String, ds: String)
    requires ':' !in ds
    ensures RSplitLast(instance + [':'] + ds, ':') == (Some(instance), ds)
  {
    var s := instance + [':'] + ds;
    var j := RFind(s, ':');
    assert s[|instance|] == ':';
    assert j.Some? && j.value == |instance|;
    assert s[..|instance|] == instance && s[|instance| + 1..] == ds;
  }

  /** A name with an explicit direction keyword and the expected direction splits without error into that direction. */
  lemma SplitWithExpected(instance: String, dirnm: String)
    requires NoDot(instance) && (dirnm == In || dirnm == Out || dirnm == SubIn || dirnm == SubOut)
    ensures SplitIOName(instance + [':'] + dirnm, Some(dirnm)) == SplitIOName(instance + [':'] + dirnm, None)
    ensures SplitIOName(instance + [':'] + dirnm, None).Ok?
  {
    var s := instance + [':'] + dirnm;
    assert NoDot(s);
    assert SplitFirst(s, '.') == (s, None);
    LastSplit(instance, dirnm);
  }

  /** An implied direction: "inst:" with an expected direction gives no direction. */
  lemma SplitImplied(instance: String, exp: String)
    requires NoDot(instance)
    ensures SplitIOName(instance + [':'], Some(exp)) == Ok(IOName(instance, None, []))
    ensures SplitIOName(instance + [':'], None) == Err(Ambiguous)
  {
    var s := instance + [':'];
    assert NoDot(s);
    assert SplitFirst(s, '.') == (s, None);
    LastSplit(instance, "");
    assert instance + [':'] + "" == s;
  }

  /** An item list that starts with an index is printed right after the specifier, which is then no keyword. */
  lemma SplitIndexFirst(instance: String)
    requires NoDot(instance)
    ensures SplitIOName(EndString(instance, Inputs, [Index(3)]), None) == Err(Ambiguous)
  {
    var spec := DirString(instance, Inputs) + "[3]";
    IndexAfterSpecifier(instance);
    DotlessSpec(instance, spec);
    LastSplit(instance, spec);
  }

  /** The end point with item list [3] prints the index right after the specifier, which is then no keyword. */
  lemma IndexAfterSpecifier(instance: String)
    ensures EndString(instance, Inputs, [Index(3)]) == instance + [':'] + (DirString(instance, Inputs) + "[3]")
    ensures NoDot(DirString(instance, Inputs) + "[3]") && !DirKeyword(DirString(instance, Inputs) + "[3]")
  {
    assert ItemsText([Index(3)]) == ItemText(Index(3)) by { assert [Index(3)][..0] == []; }
    assert IntToString(3) == "3";
    DirStringNoDot(instance, Inputs);
  }

  /** A node of the network, known here by its name. */
  datatype Instance = Instance(name: String)

  /** An initial value: its type's name and its literal. */
  datatype InitialValue = InitialValue(typeName: String, literal: String)

  /**
   * A link from an instance output to an instance input, or an input's
   * initial value.  The end points are fixed at construction; the flags are
   * set later when the connection is wired into the network.
   */
  class Connection {
    const srcInstance: Option<Instance>
    const srcIO: Option<IODir>
    const srcItemList: Option<seq<Item>>
    const dstInstance: Instance
    const dstIO: IODir
    const dstItemList: seq<Item>
    const initialValue: Option<InitialValue>
    var implicit: bool
    var srcExternal: bool
    var dstExternal: bool

    /** Exactly one of a source instance and an initial value. */
    predicate Valid() {
      srcInstance.Some? != initialValue.Some?
      && (srcInstance.Some? ==> srcIO.Some? && srcItemList.Some?)
    }

    constructor (srcInstance: Option<Instance>, srcIO: Option<IODir>, srcItemList: Option<seq<Item>>,
                 dstInstance: Instance, dstIO: IODir, dstItemList: seq<Item>,
                 initialValue: Option<InitialValue>)
      requires srcInstance.Some? != initialValue.Some?
      requires srcInstance.Some? ==> srcIO.Some? && srcItemList.Some?
      ensures Valid()
      ensures this.srcInstance == srcInstance && this.srcIO == srcIO && this.srcItemList == srcItemList
      ensures this.dstInstance == dstInstance && this.dstIO == dstIO && this.dstItemList == dstItemList
      ensures this.initialValue == initialValue
      ensures !implicit && !srcExternal && !dstExternal
    {
      this.srcInstance := srcInstance;
      this.srcIO := srcIO;
      this.srcItemList := srcItemList;
      this.dstInstance := dstInstance;
      this.dstIO := dstIO;
      this.dstItemList := dstItemList;
      this.initialValue := initialValue;
      implicit := false;
      srcExternal := false;
      dstExternal := false;
    }

    /** srcString: "" for an initial value, else the splitIOName-able source. */
    function SrcString(): (s: String)
      requires Valid()
      ensures srcInstance.None? <==> s == ""
    {
      if srcInstance.None? then ""
      else EndString(srcInstance.value.name, srcIO.value, srcItemList.value)
    }

    /** dstString: the splitIOName-able destination, led by its instance name and ':'. */
    function DstString(): (s: String)
      ensures |s| > |dstInstance.name| && s[..|dstInstance.name| + 1] == dstInstance.name + ":"
    {
      EndString(dstInstance.name, dstIO, dstItemList)
    }

    /** Both printed ends split back into the connection's end points. */
    lemma StringsRoundTrip()
      requires Valid()
      requires NoDot(dstInstance.name) && ItemsOk(dstItemList) && (|dstItemList| == 0 || dstItemList[0].Name?)
      requires srcInstance.Some? ==>
        NoDot(srcInstance.value.name) && ItemsOk(srcItemList.value)
        && (|srcItemList.value| == 0 || srcItemList.value[0].Name?)
      ensures SplitIOName(DstString(), None) == Ok(IOName(dstInstance.name, Some(dstIO), dstItemList))
      ensures srcInstance.Some? ==>
        SplitIOName(SrcString(), None) == Ok(IOName(srcInstance.value.name, srcIO, srcItemList.value))
    {
      SplitEndString(dstInstance.name, dstIO, dstItemList);
      if srcInstance.Some? {
        SplitEndString(srcInstance.value.name, srcIO.value, srcItemList.value);
      }
    }
  }

  /** Connection.__init__ with its clash checks: both or neither end raises ConnError. */
  method NewConnection(srcInstance: Option<Instance>, srcIO: Option<IODir>, srcItemList: Option<seq<Item>>,
                       dstInstance: Instance, dstIO: IODir, dstItemList: seq<Item>,
                       initialValue: Option<InitialValue>) returns (r: Result<Connection, ConnError>)
    requires srcInstance.Some? ==> srcIO.Some? && srcItemList.Some?
    ensures srcInstance.None? && initialValue.None? ==> r == Err(BothEmpty)
    ensures srcInstance.Some? && initialValue.Some? ==> r == Err(BothSet)
    ensures r.Ok? <==> srcInstance.Some? != initialValue.Some?
    ensures r.Ok? ==> fresh(r.value) && r.value.Valid()
    ensures r.Ok? ==>
      r.value.srcInstance == srcInstance && r.value.srcIO == srcIO && r.value.srcItemList == srcItemList
      && r.value.dstInstance == dstInstance && r.value.dstIO == dstIO && r.value.dstItemList == dstItemList
      && r.value.initialValue == initialValue
  {
    if srcInstance.None? && initialValue.None? {
      return Err(BothEmpty);
    }
    if srcInstance.Some? && initialValue.Some? {
      return Err(BothSet);
    }
    var c := new Connection(srcInstance, srcIO, srcItemList, dstInstance, dstIO, dstItemList, initialValue);
    return Ok(c);
  }
}
