/**
 * A named amount of something a command needs or a platform offers
 * (cores, memory, ...). Resource objects are shared by reference between
 * commands and platforms, so their value is updated in place.
 */
module Resources {
  import opened Wrappers
  import opened Text

  /** Raised when two resources with different names are combined. */
  datatype ResourceError = UnlikeResources(left: String, right: String)

  class Resource {
    const name: String
    var value: int

    constructor(name: String, value: int)
      ensures this.name == name && this.value == value
    {
      this.name := name;
      this.value := value;
    }

    /** Adds `other`'s amount to this one; resources of another kind are refused. */
    method Add(other: Resource) returns (r: Result<(), ResourceError>)
      modifies this
      ensures r.Err? <==> name != other.name
      ensures r == Err(UnlikeResources(name, other.name)) || r == Ok(())
      ensures r.Err? ==> value == old(value)
      ensures r.Ok? ==> value == old(value) + old(other.value)
    {
      if name != other.name {
        return Err(UnlikeResources(name, other.name));
      }
      value := value + other.value;
      return Ok(());
    }

    /**
     * Subtraction as the source writes it: the name check is that of Add,
     * and so is the update, which adds `other`'s amount.
     */
    method Subtract(other: Resource) returns (r: Result<(), ResourceError>)
      modifies this
      ensures r.Err? <==> name != other.name
      ensures r.Err? ==> value == old(value)
      ensures r.Ok? ==> value == old(value) + old(other.value)
    {
      if name != other.name {
        return Err(UnlikeResources(name, other.name));
      }
      value := value + other.value;
      return Ok(());
    }

    /** Subtraction as its documentation describes it: `other`'s amount is taken away. */
    method SubtractCorrected(other: Resource) returns (r: Result<(), ResourceError>)
      modifies this
      ensures r.Err? <==> name != other.name
      ensures r.Err? ==> value == old(value)
      ensures r.Ok? ==> value == old(value) - old(other.value)
    {
      if name != other.name {
        return Err(UnlikeResources(name, other.name));
      }
      value := value - other.value;
      return Ok(());
    }
  }

  /**
   * Reserving 1 of 4 cores with Subtract leaves 5 cores: the value moves
   * the wrong way.
   */
  method SubtractAddsExample() returns (left: int)
    ensures left == 5
  {
    var total := new Resource("cores", 4);
    var taken := new Resource("cores", 1);
    var _ := total.Subtract(taken);
    left := total.value;
  }

  /** With the corrected subtraction, taking away what was added restores the amount. */
  method AddThenSubtractRestores(total: Resource, delta: Resource)
    requires total != delta && total.name == delta.name
    modifies total
    ensures total.value == old(total.value)
  {
    var _ := total.Add(delta);
    var _ := total.SubtractCorrected(delta);
  }

  /** The value of each resource in a name-indexed dictionary. */
  function Values(m: map<String, Resource>): (r: map<String, int>)
    reads m.Values
    ensures r.Keys == m.Keys
    ensures forall n :: n in m ==> r[n] == m[n].value
  {
    map n | n in m :: m[n].value
  }

  /** Every entry of a dictionary is stored under its resource's own name. */
  predicate KeyedByName(m: map<String, Resource>) {
    forall n :: n in m ==> m[n].name == n
  }

  /** Dictionaries keyed by name never hold one object under two keys. */
  lemma KeyedByNameDistinct(m: map<String, Resource>, a: String, b: String)
    requires KeyedByName(m) && a in m && b in m && a != b
    ensures m[a] != m[b]
  {
  }

  /** The value stored under `name`, or None when absent (the `get...Resource` getters). */
  function Lookup(m: map<String, Resource>, name: String): (r: Option<int>)
    reads m.Values
    ensures r.Some? <==> name in m
    ensures r.Some? ==> r.value == m[name].value
  {
    if name in m then Some(m[name].value) else None
  }
}
