/**
 * Deciding which inputs of a GROMACS helper function to iterate over
 * (cpc/lib/gromacs/iterate.py): every input holding more than one item is
 * iterated, all such inputs must hold the same number N of items, and each
 * new instance is wired to element i of the iterated inputs and to element
 * 0 of the others.
 */
module Iterate {
  import opened Wrappers
  import opened Text
  import opened Keywords
  import opened VType
  import opened Connection
  import opened Enumerations

  /** IterateError: `inputName` holds a number of items other than 1 or the `n` decided so far. */
  datatype IterateError = Inconsistent(inputName: String, n: nat)

  /**
   * The number of items of input `name`: `lens` maps every input the
   * function has a value for to the length of that value; an absent value
   * counts as 0 items.
   */
  function Size(lens: map<String, nat>, name: String): nat {
    if name in lens then lens[name] else 0
  }

  /** One step of the decision: None raises, otherwise the new N. */
  function NextN(n: nat, ncur: nat): Option<nat> {
    if ncur > 1 then
      if n == 0 || n == 1 then Some(ncur)
      else if n != ncur then None
      else Some(n)
    else if ncur == 1 && n == 0 then Some(1)
    else Some(n)
  }

  /** N after the inputs `names` are considered in order, or the error raised. */
  function DecideN(lens: map<String, nat>, names: seq<String>): Result<nat, IterateError> {
    if |names| == 0 then Ok(0)
    else
      match DecideN(lens, names[..|names| - 1])
      case Err(e) => Err(e)
      case Ok(n) =>
        var name := names[|names| - 1];
        match NextN(n, Size(lens, name))
        case None => Err(Inconsistent(name, n))
        case Some(n') => Ok(n')
  }

  /** The iterate flag of each input: whether it holds more than one item. */
  function Flags(lens: map<String, nat>, names: seq<String>): map<String, bool> {
    map x | x in names :: Size(lens, x) > 1
  }

  /** The numbers of items the inputs hold. */
  function Lengths(lens: map<String, nat>, names: seq<String>): set<nat> {
    set x | x in names :: Size(lens, x)
  }

  /** The lengths greater than one: those of the iterated inputs. */
  function Many(lens: map<String, nat>, names: seq<String>): set<nat> {
    set k | k in Lengths(lens, names) && k > 1
  }

  lemma LengthsAppend(lens: map<String, nat>, names: seq<String>, x: String)
    ensures Lengths(lens, names + [x]) == Lengths(lens, names) + {Size(lens, x)}
  {
    var l := names + [x];
    forall k | k in Lengths(lens, l) ensures k in Lengths(lens, names) + {Size(lens, x)} {
      var y :| y in l && Size(lens, y) == k;
      if y != x {
        var j :| 0 <= j < |l| && l[j] == y;
        assert j < |names| && names[j] == y;
      }
    }
    forall k | k in Lengths(lens, names) ensures k in Lengths(lens, l) {
      var y :| y in names && Size(lens, y) == k;
      var j :| 0 <= j < |names| && names[j] == y;
      assert l[j] == y;
    }
    assert l[|names|] == x;
  }

  /**
   * How N is decided: the inputs raise exactly when two iterated inputs
   * hold different numbers of items; otherwise N is the common length of
   * the iterated inputs, or, when no input is iterated, 1 if some input
   * holds exactly one item and 0 if none does.
   */
  lemma {:induction false} NumberOfIterations(lens: map<String, nat>, names: seq<String>)
    ensures DecideN(lens, names).Err? <==>
      exists a, b :: a in Many(lens, names) && b in Many(lens, names) && a != b
    ensures DecideN(lens, names).Ok? && Many(lens, names) != {} ==>
      Many(lens, names) == {DecideN(lens, names).value}
    ensures DecideN(lens, names).Ok? && Many(lens, names) == {} ==>
      DecideN(lens, names).value == if 1 in Lengths(lens, names) then 1 else 0
  {
    if |names| > 0 {
      var init, x := names[..|names| - 1], names[|names| - 1];
      assert names == init + [x];
      NumberOfIterations(lens, init);
      LengthsAppend(lens, init, x);
      var s := Size(lens, x);
      var m0, m := Many(lens, init), Many(lens, names);
      assert m == m0 + (if s > 1 then {s} else {});
      match DecideN(lens, init)
      case Err(_) =>
        var a, b :| a in m0 && b in m0 && a != b;
        assert a in m && b in m;
      case Ok(n) =>
        if m0 != {} {
          assert n in m0;
          if s > 1 && s != n {
            assert n in m && s in m;
          }
        } else if s > 1 {
          assert m == {s};
        }
    }
  }

  /**
   * The loop of `iterations.__init__` over the input names: returns N and
   * the iterate flags, or the error for the first input that disagrees.
   */
  method Decide(lens: map<String, nat>, names: seq<String>) returns (r: Result<(nat, map<String, bool>), IterateError>)
    ensures DecideN(lens, names).Err? ==> r == Err(DecideN(lens, names).error)
    ensures DecideN(lens, names).Ok? ==> r == Ok((DecideN(lens, names).value, Flags(lens, names)))
  {
    var n: nat := 0;
    var inputs: map<String, bool> := map[];
    for i := 0 to |names|
      invariant DecideN(lens, names[..i]) == Ok(n)
      invariant inputs == Flags(lens, names[..i])
    {
      assert names[..i + 1][..i] == names[..i];
      var name := names[i];
      var ncur := Size(lens, name);
      var it := false;
      if ncur > 1 {
        it := true;
        if n == 0 || n == 1 {
          n := ncur;
        } else if n != ncur {
          DecideNStops(lens, names, i + 1);
          return Err(Inconsistent(name, n));
        }
      } else if ncur == 1 {
        if n == 0 {
          n := 1;
        }
      }
      inputs := inputs[name := it];
      FlagsAppend(lens, names[..i], name);
      assert names[..i + 1] == names[..i] + [name];
    }
    assert names[..|names|] == names;
    r := Ok((n, inputs));
  }

  lemma FlagsAppend(lens: map<String, nat>, names: seq<String>, x: String)
    ensures Flags(lens, names + [x]) == Flags(lens, names)[x := Size(lens, x) > 1]
  {
    var l := names + [x];
    forall y | y in names ensures y in l {
      var j :| 0 <= j < |names| && names[j] == y;
      assert l[j] == y;
    }
    assert l[|names|] == x;
  }

  /** Once a prefix raises, the whole list raises with the same error. */
  lemma {:induction false} DecideNStops(lens: map<String, nat>, names: seq<String>, k: nat)
    requires k <= |names| && DecideN(lens, names[..k]).Err?
    ensures DecideN(lens, names) == DecideN(lens, names[..k])
    decreases |names| - k
  {
    if k < |names| {
      assert names[..k + 1][..k] == names[..k];
      DecideNStops(lens, names, k + 1);
    } else {
      assert names[..k] == names;
    }
  }

  /** A wire between two end points: the arguments of one `out.addConnection` call. */
  datatype Wire = Wire(src: String, dst: String)

  /** The wire of input `name` of instance `instName`, from element `k` of the function's own input. */
  function InputWire(name: String, k: nat, instName: String): Wire {
    Wire(SelfEnd(name, k, Inputs), InstanceEnd(name, instName, Inputs))
  }

  /** The wire of output `name` of instance `instName`, to element `i` of the function's own output. */
  function OutputWire(name: String, i: nat, instName: String): Wire {
    Wire(InstanceEnd(name, instName, Outputs), SelfEnd(name, i, Outputs))
  }

  class Iterations {
    /** The number of iterations. */
    const N: nat
    /** The iterate flag of each input name. */
    const inputs: map<String, bool>
    const outputs: seq<String>
    /** The input lengths and input names the decision was made on. */
    ghost const lens: map<String, nat>
    ghost const names: seq<String>

    ghost predicate Valid() {
      DecideN(lens, names) == Ok(N) && inputs == Flags(lens, names)
    }

    constructor(n: nat, flags: map<String, bool>, outputs: seq<String>, ghost lens: map<String, nat>, ghost names: seq<String>)
      requires DecideN(lens, names) == Ok(n) && flags == Flags(lens, names)
      ensures Valid() && this.lens == lens && this.names == names && this.outputs == outputs
    {
      N, inputs, this.outputs := n, flags, outputs;
      this.lens, this.names := lens, names;
    }

    /** getN: the common length of the iterated inputs, else 1 or 0 (see NumberOfIterations). */
    function GetN(): (r: nat)
      requires Valid()
      ensures Many(lens, names) != {} ==> Many(lens, names) == {r}
      ensures Many(lens, names) == {} ==> r == if 1 in Lengths(lens, names) then 1 else 0
    {
      NumberOfIterations(lens, names);
      N
    }

    /** iterate(name): whether the input holds more than one item; a name not considered raises. */
    function IsIterated(inputName: String): (r: Option<bool>)
      requires Valid()
      ensures r.Some? <==> inputName in names
      ensures r.Some? ==> (r.value <==> Size(lens, inputName) > 1)
    {
      if inputName in inputs then Some(inputs[inputName]) else None
    }

    /**
     * connect(out, i, instName): one wire per input, in the order `order`
     * the flags dictionary lists them, then one per output.
     */
    method Connect(i: nat, instName: String) returns (wires: seq<Wire>, ghost order: seq<String>)
      ensures Enumerates(order, inputs.Keys)
      ensures |wires| == |order| + |outputs|
      ensures forall k :: 0 <= k < |order| ==>
        wires[k] == InputWire(order[k], if inputs[order[k]] then i else 0, instName)
      ensures forall k :: 0 <= k < |outputs| ==> wires[|order| + k] == OutputWire(outputs[k], i, instName)
    {
      var ins;
      ins, order := WireInputs(inputs, i, instName);
      var outs := WireOutputs(outputs, i, instName);
      wires := ins + outs;
    }
  }

  /** The first loop of connect: one wire per input, in the order `order` the dictionary lists them. */
  method WireInputs(inputs: map<String, bool>, i: nat, instName: String) returns (wires: seq<Wire>, ghost order: seq<String>)
    ensures Enumerates(order, inputs.Keys)
    ensures |wires| == |order|
    ensures forall k :: 0 <= k < |order| ==>
      wires[k] == InputWire(order[k], if inputs[order[k]] then i else 0, instName)
  {
    var keys := inputs.Keys;
    wires, order := [], [];
    while keys != {}
      invariant keys <= inputs.Keys
      invariant Enumerates(order, inputs.Keys - keys)
      invariant |wires| == |order|
      invariant forall k :: 0 <= k < |order| ==>
        wires[k] == InputWire(order[k], if inputs[order[k]] then i else 0, instName)
      decreases |keys|
    {
      var name :| name in keys;
      EnumeratesNext(order, inputs.Keys, keys, name);
      var w := if inputs[name] then InputWire(name, i, instName) else InputWire(name, 0, instName);
      wires, order := wires + [w], order + [name];
      keys := keys - {name};
    }
    assert inputs.Keys - keys == inputs.Keys;
  }

  /** The second loop of connect: one wire per output, in order. */
  method WireOutputs(outputs: seq<String>, i: nat, instName: String) returns (wires: seq<Wire>)
    ensures |wires| == |outputs|
    ensures forall k :: 0 <= k < |outputs| ==> wires[k] == OutputWire(outputs[k], i, instName)
  {
    wires := [];
    for j := 0 to |outputs|
      invariant |wires| == j
      invariant forall k :: 0 <= k < j ==> wires[k] == OutputWire(outputs[k], i, instName)
    {
      wires := wires + [OutputWire(outputs[j], i, instName)];
    }
  }

  /**
   * iterations(inp, inputs, outputs, pers): decides N and the flags, and
   * raises IterateError on inconsistent lengths.
   */
  method NewIterations(lens: map<String, nat>, names: seq<String>, outputs: seq<String>)
    returns (r: Result<Iterations, IterateError>)
    ensures r.Err? <==> exists a, b :: a in Many(lens, names) && b in Many(lens, names) && a != b
    ensures r.Ok? ==> fresh(r.value) && r.value.Valid()
    ensures r.Ok? ==> r.value.lens == lens && r.value.names == names && r.value.outputs == outputs
  {
    NumberOfIterations(lens, names);
    var d := Decide(lens, names);
    match d
    case Err(e) => return Err(e);
    case Ok(p) =>
      var it := new Iterations(p.0, p.1, outputs, lens, names);
      return Ok(it);
  }

  /**
   * The wire of an input reads back, through the I/O name parser, as
   * element `k` of the function's own external input of that name feeding
   * the input of that name of the new instance.
   */
  lemma InputWireParses(name: String, k: nat, instName: String)
    requires NameOk(name) && NoDot(instName) && instName != Self
    ensures SplitIOName(InputWire(name, k, instName).src, None) == Ok(IOName(Self, Some(Inputs), [Name(name), Index(k)]))
    ensures SplitIOName(InputWire(name, k, instName).dst, None) == Ok(IOName(instName, Some(Inputs), [Name(name)]))
  {
    SelfEndParses(name, k, Inputs);
    InstanceEndParses(name, instName, Inputs);
  }

  /**
   * The wire of an output reads back as the new instance's output of that
   * name feeding element `i` of the function's own external output.
   */
  lemma OutputWireParses(name: String, i: nat, instName: String)
    requires NameOk(name) && NoDot(instName) && instName != Self
    ensures SplitIOName(OutputWire(name, i, instName).src, None) == Ok(IOName(instName, Some(Outputs), [Name(name)]))
    ensures SplitIOName(OutputWire(name, i, instName).dst, None) == Ok(IOName(Self, Some(Outputs), [Name(name), Index(i)]))
  {
    SelfEndParses(name, i, Outputs);
    InstanceEndParses(name, instName, Outputs);
  }

  /** The function's own end of a wire reads back as element `k` of its external I/O `name`. */
  lemma SelfEndParses(name: String, k: nat, d: IODir)
    requires NameOk(name) && (d == Inputs || d == Outputs)
    ensures SplitIOName(SelfEnd(name, k, d), None) == Ok(IOName(Self, Some(d), [Name(name), Index(k)]))
  {
    SelfEndPrinted(name, k, d);
    SplitEndString(Self, d, [Name(name), Index(k)]);
  }

  /** The instance's end of a wire reads back as its I/O `name`. */
  lemma InstanceEndParses(name: String, instName: String, d: IODir)
    requires NameOk(name) && NoDot(instName) && instName != Self && (d == Inputs || d == Outputs)
    ensures SplitIOName(InstanceEnd(name, instName, d), None) == Ok(IOName(instName, Some(d), [Name(name)]))
  {
    InstanceEndPrinted(name, instName, d);
    SplitEndString(instName, d, [Name(name)]);
  }

  /** `self:ext_in.name[k]` or `self:ext_out.name[k]`. */
  function SelfEnd(name: String, k: nat, d: IODir): String {
    (if d == Inputs then "self:ext_in." else "self:ext_out.") + name + "[" + NatToString(k) + "]"
  }

  /** `instName:in.name` or `instName:out.name`. */
  function InstanceEnd(name: String, instName: String, d: IODir): String {
    instName + (if d == Inputs then ":in." else ":out.") + name
  }

  lemma SelfEndPrinted(name: String, k: nat, d: IODir)
    requires d == Inputs || d == Outputs
    ensures EndString(Self, d, [Name(name), Index(k)]) == SelfEnd(name, k, d)
  {
    ItemsTwo(name, k);
    SelfPrefix(d);
    Regroup(Self + ":" + DirString(Self, d), ".", name, "[", NatToString(k), "]");
  }

  lemma SelfPrefix(d: IODir)
    requires d == Inputs || d == Outputs
    ensures Self + ":" + DirString(Self, d) + "." == if d == Inputs then "self:ext_in." else "self:ext_out."
  {
  }

  /** Moving a prefix into a left-nested concatenation. */
  lemma Regroup(q: String, a: String, b: String, c: String, e: String, f: String)
    ensures q + ((((a + b) + c) + e) + f) == ((((q + a) + b) + c) + e) + f
  {
  }

  lemma InstanceEndPrinted(name: String, instName: String, d: IODir)
    requires instName != Self && (d == Inputs || d == Outputs)
    ensures EndString(instName, d, [Name(name)]) == InstanceEnd(name, instName, d)
  {
    ItemsOne(name);
    InstancePrefix(instName, d);
    Regroup(instName + ":" + DirString(instName, d), ".", name, "", "", "");
  }

  lemma InstancePrefix(instName: String, d: IODir)
    requires instName != Self && (d == Inputs || d == Outputs)
    ensures instName + ":" + DirString(instName, d) + "." == instName + (if d == Inputs then ":in." else ":out.")
  {
  }

  lemma ItemsOne(name: String)
    ensures ItemsText([Name(name)]) == "." + name
  {
    assert [Name(name)][..0] == [];
  }

  lemma ItemsTwo(name: String, k: nat)
    ensures ItemsText([Name(name), Index(k)]) == "." + name + "[" + NatToString(k) + "]"
  {
    var two := [Name(name), Index(k)];
    assert ItemsText(two) == ItemsText([Name(name)]) + ItemText(Index(k)) by {
      assert two[..1] == [Name(name)];
    }
    ItemsOne(name);
  }
}
