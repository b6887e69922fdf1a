/**
 * The server's table of known nodes and their priorities. A node's
 * priority is its rank in the table's priority order; every change of
 * priority renumbers the whole table 0, 1, 2, ...
 *
 * Nodes are values here: the table's map holds each node's current
 * record, and a renumbering rewrites the records. Routing over the
 * nodes' neighbour links is modelled in module Routes.
 */
module NodeList {
  import opened Wrappers
  import opened Text

  /** A server as other servers know it. */
  datatype Node = Node(host: String, httpPort: int, httpsPort: int, qualifiedName: String, priority: Option<int>)
  {
    /** getId: a node is identified by its qualified name. */
    function GetId(): String {
      qualifiedName
    }
  }

  /** A node as the constructor makes it: no priority yet. */
  function NewNode(host: String, httpPort: int, httpsPort: int, qualifiedName: String): (n: Node)
    ensures n.GetId() == qualifiedName && n.priority == None
    ensures n.host == host && n.httpPort == httpPort && n.httpsPort == httpsPort
  {
    Node(host, httpPort, httpsPort, qualifiedName, None)
  }

  /** The order of the priority key: no priority sorts before every number. */
  predicate Le(a: Option<int>, b: Option<int>) {
    a.None? || (b.Some? && a.value <= b.value)
  }

  /** The nodes of `s` in non-decreasing priority order. */
  ghost predicate SortedByPriority(s: seq<Node>) {
    forall i, j :: 0 <= i < j < |s| ==> Le(s[i].priority, s[j].priority)
  }

  /** Every node of `m` is stored under its own id. */
  ghost predicate Keyed(m: map<String, Node>) {
    forall k :: k in m ==> m[k].qualifiedName == k
  }

  /** No id occurs twice in `s`. */
  ghost predicate DistinctIds(s: seq<Node>) {
    forall i, j :: 0 <= i < j < |s| ==> s[i].qualifiedName != s[j].qualifiedName
  }

  /** `s` lists every node stored in `m` exactly once. */
  ghost predicate Lists(s: seq<Node>, m: map<String, Node>) {
    && |s| == |m| && DistinctIds(s)
    && (forall i :: 0 <= i < |s| ==> s[i].qualifiedName in m && m[s[i].qualifiedName] == s[i])
    && (forall k :: k in m ==> m[k] in s)
  }

  /** The priorities of `m` are 0..|m|-1, each held by one node. */
  ghost predicate Dense(m: map<String, Node>) {
    && (forall k :: k in m ==> m[k].priority.Some? && 0 <= m[k].priority.value < |m|)
    && (forall k, l :: k in m && l in m && k != l ==> m[k].priority != m[l].priority)
  }

  /** `s` without its element at `pos`. */
  function Without<T>(s: seq<T>, pos: nat): (r: seq<T>)
    requires pos < |s|
    ensures |r| == |s| - 1
    ensures forall i :: 0 <= i < pos ==> r[i] == s[i]
    ensures forall i :: pos <= i < |r| ==> r[i] == s[i + 1]
  {
    s[..pos] + s[pos + 1..]
  }

  /** `s` with `x` inserted at `pos`. */
  function Insert<T>(s: seq<T>, pos: nat, x: T): (t: seq<T>)
    requires pos <= |s|
    ensures |t| == |s| + 1 && t[pos] == x
    ensures forall i :: 0 <= i < pos ==> t[i] == s[i]
    ensures forall i :: pos < i < |t| ==> t[i] == s[i - 1]
  {
    s[..pos] + [x] + s[pos..]
  }

  /** Taking out what was inserted gives the sequence back. */
  lemma WithoutInsert<T>(s: seq<T>, pos: nat, x: T)
    requires pos <= |s|
    ensures Without(Insert(s, pos, x), pos) == s
  {
    assert Without(Insert(s, pos, x), pos) == s;
  }

  /**
   * Where Python's `list.insert(p, x)` puts x in a list of length m:
   * a negative p counts from the end, and p is clamped to 0..m.
   */
  function InsertPos(p: int, m: nat): (r: nat)
    ensures r <= m
    ensures 0 <= p <= m ==> r == p
    ensures p > m ==> r == m
    ensures -(m as int) <= p < 0 ==> r == m + p
    ensures p < -(m as int) ==> r == 0
  {
    if p < 0 then (if p + m < 0 then 0 else p + m)
    else if p > m then m
    else p
  }

  /** The position changePriority gives a node among m others: None means last. */
  function TargetPos(p: Option<int>, m: nat): (r: nat)
    ensures r <= m
    ensures p.None? ==> r == m
  {
    match p
    case None => m
    case Some(q) => InsertPos(q, m)
  }

  /**
   * The table the renumbering loop of changePriority leaves: each node of
   * `s` stored under its id with its position in `s` as its priority.
   */
  function Renumbered(s: seq<Node>): map<String, Node> {
    if |s| == 0 then map[]
    else
      var last := s[|s| - 1];
      Renumbered(s[..|s| - 1])[last.qualifiedName := last.(priority := Some(|s| - 1))]
  }

  /** Renumbering keeps every node of a listing, with its position as priority and the rest as it was. */
  lemma {:induction false} RenumberedAt(s: seq<Node>)
    requires DistinctIds(s)
    ensures forall k :: k in Renumbered(s) <==> exists i :: 0 <= i < |s| && s[i].qualifiedName == k
    ensures forall i :: 0 <= i < |s| ==> Renumbered(s)[s[i].qualifiedName] == s[i].(priority := Some(i))
  {
    if |s| > 0 {
      var init := s[..|s| - 1];
      RenumberedAt(init);
      forall k ensures k in Renumbered(s) <==> exists i :: 0 <= i < |s| && s[i].qualifiedName == k {
        if k in Renumbered(init) {
          var i :| 0 <= i < |init| && init[i].qualifiedName == k;
          assert s[i].qualifiedName == k;
        }
        if exists i :: 0 <= i < |s| && s[i].qualifiedName == k {
          var i :| 0 <= i < |s| && s[i].qualifiedName == k;
          if i < |init| {
            assert init[i].qualifiedName == k;
          }
        }
      }
      forall i | 0 <= i < |s| ensures Renumbered(s)[s[i].qualifiedName] == s[i].(priority := Some(i)) {
        if i < |init| {
          assert init[i] == s[i];
        }
      }
    }
  }

  /** The renumbered entry of the node at position i. */
  lemma RenumberedEntry(s: seq<Node>, i: nat)
    requires DistinctIds(s) && i < |s|
    ensures s[i].qualifiedName in Renumbered(s)
    ensures Renumbered(s)[s[i].qualifiedName] == s[i].(priority := Some(i))
  {
    RenumberedAt(s);
  }

  /** Position at which `x` joins the sorted `s` after every node of equal or lower priority. */
  method InsertionPoint(s: seq<Node>, x: Node) returns (pos: nat)
    requires SortedByPriority(s)
    ensures pos <= |s|
    ensures forall i :: 0 <= i < pos ==> Le(s[i].priority, x.priority)
    ensures forall i :: pos <= i < |s| ==> !Le(s[i].priority, x.priority)
  {
    pos := |s|;
    while pos > 0 && !Le(s[pos - 1].priority, x.priority)
      invariant pos <= |s|
      invariant forall i :: pos <= i < |s| ==> !Le(s[i].priority, x.priority)
    {
      pos := pos - 1;
    }
    if pos > 0 {
      forall i | 0 <= i < pos ensures Le(s[i].priority, x.priority) {
        assert Le(s[i].priority, s[pos - 1].priority);
      }
    }
  }

  /** One pair of positions of the list with `x` inserted at its insertion point. */
  lemma InsertPairSorted(s: seq<Node>, x: Node, pos: nat, i: nat, j: nat)
    requires SortedByPriority(s) && pos <= |s| && i < j <= |s|
    requires forall i :: 0 <= i < pos ==> Le(s[i].priority, x.priority)
    requires forall i :: pos <= i < |s| ==> !Le(s[i].priority, x.priority)
    ensures Le(Insert(s, pos, x)[i].priority, Insert(s, pos, x)[j].priority)
  {
    var t := Insert(s, pos, x);
    if j < pos {
      assert t[i] == s[i] && t[j] == s[j];
    } else if j == pos {
      assert t[i] == s[i] && t[j] == x;
    } else if i < pos {
      assert t[i] == s[i] && t[j] == s[j - 1];
    } else if i == pos {
      assert t[j] == s[j - 1];
    } else {
      assert t[i] == s[i - 1] && t[j] == s[j - 1];
    }
  }

  /** Inserting at the insertion point keeps a sorted list sorted. */
  lemma InsertKeepsSorted(s: seq<Node>, x: Node, pos: nat)
    requires SortedByPriority(s) && pos <= |s|
    requires forall i :: 0 <= i < pos ==> Le(s[i].priority, x.priority)
    requires forall i :: pos <= i < |s| ==> !Le(s[i].priority, x.priority)
    ensures SortedByPriority(Insert(s, pos, x))
  {
    var t := Insert(s, pos, x);
    forall i, j | 0 <= i < j < |t| ensures Le(t[i].priority, t[j].priority) {
      InsertPairSorted(s, x, pos, i, j);
    }
  }

  /** Inserting a node whose id is not yet listed keeps the ids distinct. */
  lemma InsertDistinct(s: seq<Node>, x: Node, pos: nat)
    requires DistinctIds(s) && pos <= |s|
    requires forall i :: 0 <= i < |s| ==> s[i].qualifiedName != x.qualifiedName
    ensures DistinctIds(Insert(s, pos, x))
  {
    var t := Insert(s, pos, x);
    forall i, j | 0 <= i < j < |t| ensures t[i].qualifiedName != t[j].qualifiedName {
      if i < pos && j > pos {
        assert t[i] == s[i] && t[j] == s[j - 1];
      } else if i > pos {
        assert t[i] == s[i - 1] && t[j] == s[j - 1];
      } else if i < pos && j < pos {
        assert t[i] == s[i] && t[j] == s[j];
      } else if i < pos {
        assert t[i] == s[i];
      } else {
        assert t[j] == s[j - 1];
      }
    }
  }

  /**
   * A listing of the map without `id`, with id's node inserted at `pos`,
   * lists the whole map; taking the node out again gives the listing back.
   */
  lemma InsertLists(m: map<String, Node>, id: String, s: seq<Node>, pos: nat)
    requires Keyed(m) && id in m && Lists(s, m - {id}) && pos <= |s|
    ensures Lists(Insert(s, pos, m[id]), m)
  {
    var x := m[id];
    var t := Insert(s, pos, x);
    forall i | 0 <= i < |s| ensures s[i].qualifiedName != x.qualifiedName {
      assert s[i].qualifiedName in m - {id};
    }
    InsertDistinct(s, x, pos);
    assert |m - {id}| == |m| - 1 by {
      assert (m - {id}).Keys == m.Keys - {id};
    }
    forall i | 0 <= i < |t| ensures t[i].qualifiedName in m && m[t[i].qualifiedName] == t[i] {
      if i < pos {
        assert t[i] == s[i];
      } else if i > pos {
        assert t[i] == s[i - 1];
      }
    }
    forall k | k in m ensures m[k] in t {
      if k != id {
        var i :| 0 <= i < |s| && s[i] == (m - {id})[k];
        if i < pos {
          assert t[i] == s[i];
        } else {
          assert t[i + 1] == s[i];
        }
      }
    }
  }

  lemma {:induction false} RankLower(s: seq<Node>, i: nat)
    requires SortedByPriority(s) && i < |s|
    requires forall j :: 0 <= j < |s| ==> s[j].priority.Some? && s[j].priority.value >= 0
    requires forall j, k :: 0 <= j < k < |s| ==> s[j].priority != s[k].priority
    ensures s[i].priority.value >= i
  {
    if i > 0 {
      RankLower(s, i - 1);
      assert Le(s[i - 1].priority, s[i].priority);
    }
  }

  lemma {:induction false} RankUpper(s: seq<Node>, i: nat)
    requires SortedByPriority(s) && i < |s|
    requires forall j :: 0 <= j < |s| ==> s[j].priority.Some? && s[j].priority.value < |s|
    requires forall j, k :: 0 <= j < k < |s| ==> s[j].priority != s[k].priority
    ensures s[i].priority.value <= i
    decreases |s| - i
  {
    if i < |s| - 1 {
      RankUpper(s, i + 1);
      assert Le(s[i].priority, s[i + 1].priority);
    }
  }

  /**
   * Nodes sorted by priorities that are 0..m-1, each once: the node at
   * position i has priority i.
   */
  lemma Rank(s: seq<Node>, i: nat)
    requires SortedByPriority(s) && i < |s|
    requires forall j :: 0 <= j < |s| ==> s[j].priority.Some? && 0 <= s[j].priority.value < |s|
    requires forall j, k :: 0 <= j < k < |s| ==> s[j].priority != s[k].priority
    ensures s[i].priority == Some(i)
  {
    RankLower(s, i);
    RankUpper(s, i);
  }

  /**
   * Renumbering a full listing of a table keeps its ids and every field
   * but the priority, and the priorities become 0..n-1.
   */
  lemma RenumberedDense(order: seq<Node>, m: map<String, Node>)
    requires Keyed(m) && Lists(order, m)
    ensures Renumbered(order).Keys == m.Keys
    ensures Dense(Renumbered(order))
    ensures forall k :: k in m ==> Renumbered(order)[k] == m[k].(priority := Renumbered(order)[k].priority)
  {
    var r := Renumbered(order);
    RenumberedAt(order);
    forall k | k in m ensures k in r && r[k] == m[k].(priority := r[k].priority) {
      var i :| 0 <= i < |order| && order[i] == m[k];
    }
    assert r.Keys == m.Keys;
    forall k, l | k in r && l in r && k != l ensures r[k].priority != r[l].priority {
      var i :| 0 <= i < |order| && order[i].qualifiedName == k;
      var j :| 0 <= j < |order| && order[j].qualifiedName == l;
    }
  }

  /** One step of the renumbering loop: the node at position i gets priority i. */
  lemma RenumberStep(base: map<String, Node>, s: seq<Node>, i: nat)
    requires i < |s|
    ensures (base + Renumbered(s[..i]))[s[i].qualifiedName := s[i].(priority := Some(i))]
            == base + Renumbered(s[..i + 1])
  {
    var t := s[..i + 1];
    assert t[..i] == s[..i] && t[i] == s[i];
    var r := Renumbered(s[..i]);
    var k0 := s[i].qualifiedName;
    var v := s[i].(priority := Some(i));
    assert Renumbered(t) == r[k0 := v];
    var lhs := (base + r)[k0 := v];
    var rhs := base + r[k0 := v];
    forall k ensures k in lhs <==> k in rhs {}
    forall k | k in lhs ensures lhs[k] == rhs[k] {}
    assert lhs == rhs;
  }

  /** Renumbering a full listing overwrites every entry of the table it lists. */
  lemma RenumberedCovers(order: seq<Node>, m: map<String, Node>, id: String)
    requires Keyed(m) && Lists(order, m)
    ensures (m - {id}) + Renumbered(order) == Renumbered(order)
    ensures Keyed(Renumbered(order))
  {
    RenumberedDense(order, m);
    RenumberedAt(order);
    var r := Renumbered(order);
    forall k | k in r ensures r[k].qualifiedName == k {
      var i :| 0 <= i < |order| && order[i].qualifiedName == k;
    }
  }

  /**
   * The old nodes listed before a new last node, sorted by priorities that
   * were 0..n-1, sit at the positions their priorities name.
   */
  lemma OldNodesRanked(order: seq<Node>, m: map<String, Node>, node: Node)
    requires Keyed(m) && node.qualifiedName !in m && Dense(m)
    requires Lists(order, m[node.qualifiedName := node]) && order[|m|] == node
    requires SortedByPriority(Without(order, |m|))
    ensures forall i :: 0 <= i < |m| ==> order[i].qualifiedName in m && order[i] == m[order[i].qualifiedName]
    ensures forall i :: 0 <= i < |m| ==> order[i].priority == Some(i)
  {
    var rest := Without(order, |m|);
    assert |rest| == |m|;
    forall i | 0 <= i < |m| ensures order[i].qualifiedName in m && order[i] == m[order[i].qualifiedName] {
      assert order[i].qualifiedName != order[|m|].qualifiedName;
    }
    forall j, k | 0 <= j < k < |rest| ensures rest[j].priority != rest[k].priority {
      assert rest[j] == order[j] && rest[k] == order[k];
      assert rest[j].qualifiedName != rest[k].qualifiedName;
    }
    forall i | 0 <= i < |m| ensures order[i].priority == Some(i) {
      assert rest[i] == order[i];
      Rank(rest, i);
    }
  }

  /** The entries the renumbering gives the old nodes and the new one. */
  lemma AppendedEntries(order: seq<Node>, m: map<String, Node>, node: Node)
    requires Keyed(m) && node.qualifiedName !in m && Dense(m)
    requires Lists(order, m[node.qualifiedName := node]) && order[|m|] == node
    requires SortedByPriority(Without(order, |m|))
    ensures var target := m[node.qualifiedName := node.(priority := Some(|m|))];
      forall k :: k in target ==> k in Renumbered(order) && Renumbered(order)[k] == target[k]
  {
    var key := node.qualifiedName;
    var full := m[key := node];
    OldNodesRanked(order, m, node);
    RenumberedAt(order);
    var target := m[key := node.(priority := Some(|m|))];
    forall k | k in target ensures k in Renumbered(order) && Renumbered(order)[k] == target[k] {
      if k == key {
        assert order[|m|].qualifiedName == key;
      } else {
        assert full[k] == m[k];
        var i :| 0 <= i < |order| && order[i] == m[k];
        assert order[i].qualifiedName == k;
      }
    }
  }

  /** Renumbering a listing of the table plus one node adds no other id. */
  lemma AppendedKeys(order: seq<Node>, m: map<String, Node>, node: Node)
    requires Lists(order, m[node.qualifiedName := node])
    ensures forall k :: k in Renumbered(order) ==> k == node.qualifiedName || k in m
  {
    RenumberedAt(order);
    forall k | k in Renumbered(order) ensures k == node.qualifiedName || k in m {
      var i :| 0 <= i < |order| && order[i].qualifiedName == k;
    }
  }

  /**
   * When a node with a new id is listed last after a table whose priorities
   * were 0..n-1, renumbering leaves every old node as it was.
   */
  lemma AppendKeepsOld(order: seq<Node>, m: map<String, Node>, node: Node)
    requires Keyed(m) && node.qualifiedName !in m && Dense(m)
    requires Lists(order, m[node.qualifiedName := node]) && order[|m|] == node
    requires SortedByPriority(Without(order, |m|))
    ensures Renumbered(order) == m[node.qualifiedName := node.(priority := Some(|m|))]
  {
    AppendedEntries(order, m, node);
    AppendedKeys(order, m, node);
    var target := m[node.qualifiedName := node.(priority := Some(|m|))];
    assert Renumbered(order).Keys == target.Keys;
  }

  /** The nodes of the table, keyed by id. */
  class Nodes {
    var nodes: map<String, Node>

    ghost predicate Valid()
      reads this
    {
      Keyed(nodes)
    }

    constructor()
      ensures Valid() && nodes == map[] && Dense(nodes)
    {
      nodes := map[];
    }

    /**
     * addNode: the node is stored under its id and given the last
     * priority. When the id is new and the priorities were 0..n-1, every
     * other node is left as it was, so n adds number the nodes 0..n-1 in
     * the order they were added.
     */
    method AddNode(node: Node)
      requires Valid()
      modifies this
      ensures Valid() && nodes.Keys == old(nodes).Keys + {node.qualifiedName}
      ensures nodes[node.qualifiedName] == node.(priority := Some(|nodes| - 1))
      ensures Dense(nodes)
      ensures node.qualifiedName !in old(nodes) && Dense(old(nodes)) ==>
        nodes == old(nodes)[node.qualifiedName := node.(priority := Some(|old(nodes)|))]
    {
      var key := node.GetId();
      nodes := nodes[key := node];
      ghost var added := nodes;
      assert added.Keys == old(nodes).Keys + {key};
      ghost var order := ChangePriority(key, None);
      RenumberedDense(order, added);
      assert nodes.Keys == added.Keys;
      ghost var last := |added| - 1;
      assert order[last] == node;
      RenumberedEntry(order, last);
      assert nodes[key] == node.(priority := Some(last));
      if key !in old(nodes) && Dense(old(nodes)) {
        assert |added| == |old(nodes)| + 1;
        AppendKeepsOld(order, old(nodes), node);
      }
    }

    /** removeNode: the id is gone; an unknown id changes nothing. */
    method RemoveNode(id: String)
      requires Valid()
      modifies this
      ensures Valid()
      ensures nodes == old(nodes) - {id}
      ensures id !in old(nodes) ==> nodes == old(nodes)
    {
      nodes := nodes - {id};
    }

    /** exists / existsWithId. */
    function Exists(id: String): (b: bool)
      reads this
      ensures b <==> id in nodes
    {
      id in nodes
    }

    /** get: the node stored under the id; the source raises KeyError for an unknown id. */
    function Get(id: String): (r: Option<Node>)
      requires Valid()
      reads this
      ensures r.Some? <==> id in nodes
      ensures r.Some? ==> r.value in nodes.Values && r.value.GetId() == id
    {
      if id in nodes then Some(nodes[id]) else None
    }

    function Size(): (r: nat)
      reads this
      ensures r == |nodes|
    {
      |nodes|
    }

    /** getNodesByPriority: every stored node once, in non-decreasing priority order. */
    method GetNodesByPriority() returns (list: seq<Node>)
      requires Valid()
      ensures Lists(list, nodes) && SortedByPriority(list)
    {
      var keys := nodes.Keys;
      list := [];
      while keys != {}
        invariant keys <= nodes.Keys
        invariant SortedByPriority(list) && DistinctIds(list)
        invariant |list| + |keys| == |nodes|
        invariant forall i :: 0 <= i < |list| ==>
          list[i].qualifiedName in nodes && nodes[list[i].qualifiedName] == list[i] && list[i].qualifiedName !in keys
        invariant forall k :: k in nodes && k !in keys ==> nodes[k] in list
        decreases |keys|
      {
        var k :| k in keys;
        var x := nodes[k];
        var pos := InsertionPoint(list, x);
        InsertKeepsSorted(list, x, pos);
        InsertDistinct(list, x, pos);
        var next := Insert(list, pos, x);
        assert forall i :: 0 <= i < |next| ==> next[i] in list || next[i] == x;
        assert forall n :: n in list ==> n in next;
        list := next;
        keys := keys - {k};
      }
    }

    /**
     * changePriority: the node with this id moves to position p of the
     * priority order (the end for None or a p past the end, Python's
     * list.insert rules for a negative p), the others keep their order,
     * and every node is renumbered with its position. An unknown id
     * changes nothing. `order` is the priority order chosen, as the nodes
     * were before the renumbering.
     */
    method ChangePriority(id: String, p: Option<int>) returns (ghost order: seq<Node>)
      requires Valid()
      modifies this
      ensures Valid()
      ensures id !in old(nodes) ==> nodes == old(nodes) && order == []
      ensures id in old(nodes) ==> Lists(order, old(nodes))
      ensures id in old(nodes) ==> order[TargetPos(p, |old(nodes)| - 1)] == old(nodes)[id]
      ensures id in old(nodes) ==> SortedByPriority(Without(order, TargetPos(p, |old(nodes)| - 1)))
      ensures id in old(nodes) ==> nodes == Renumbered(order)
    {
      if id !in nodes {
        return [];
      }
      ghost var before := nodes;
      var node := nodes[id];
      RemoveNode(id);
      var list := GetNodesByPriority();
      assert |list| == |before| - 1 by {
        assert nodes.Keys == before.Keys - {id};
      }
      var pos := TargetPos(p, |list|);
      InsertLists(before, id, list, pos);
      WithoutInsert(list, pos, node);
      list := Insert(list, pos, node);
      order := list;
      Renumber(list);
      RenumberedCovers(list, before, id);
    }

    /** changePriority's final loop: each node of `list` is stored with its position as priority. */
    method Renumber(list: seq<Node>)
      modifies this
      ensures nodes == old(nodes) + Renumbered(list)
    {
      for i := 0 to |list|
        invariant nodes == old(nodes) + Renumbered(list[..i])
      {
        RenumberStep(old(nodes), list, i);
        nodes := nodes[list[i].qualifiedName := list[i].(priority := Some(i))];
      }
      assert list[..|list|] == list;
    }
  }
}
