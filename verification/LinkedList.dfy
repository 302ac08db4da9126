/**
 The doubly linked list of `BaseLayer/SFList.cpp`, which keeps removed nodes on a chain of its
 own and takes new ones from there.
*/
module LinkedList {

  /** An address; the list stores what it is given and never looks behind it. */
  type Pointer = nat

  const NULL: Pointer := 0

  class Node {
    var next: Node?
    var prev: Node?
    var item: Pointer

    constructor ()
      ensures next == null && prev == null
    {
      next, prev, item := null, null, NULL;
    }
  }

  // ---------- Chains of nodes ----------

  function At(s: seq<Node>, i: int): Node? {
    if 0 <= i < |s| then s[i] else null
  }

  ghost predicate Forward(s: seq<Node>)
    reads s`next
  {
    forall i :: 0 <= i < |s| ==> s[i].next == At(s, i + 1)
  }

  ghost predicate Backward(s: seq<Node>)
    reads s`prev
  {
    forall i :: 0 <= i < |s| ==> s[i].prev == At(s, i - 1)
  }

  ghost predicate Distinct(s: seq<Node>) {
    forall i, j :: 0 <= i < j < |s| ==> s[i] != s[j]
  }

  ghost predicate Apart(s: seq<Node>, t: seq<Node>) {
    forall n :: n in s ==> n !in t
  }

  ghost function Items(s: seq<Node>): (r: seq<Pointer>)
    reads s`item
    ensures |r| == |s| && forall i :: 0 <= i < |s| ==> r[i] == s[i].item
  {
    if s == [] then [] else Items(s[..|s| - 1]) + [s[|s| - 1].item]
  }

  function Without<T>(s: seq<T>, i: nat): (r: seq<T>)
    requires i < |s|
    ensures |r| == |s| - 1
  {
    s[..i] + s[i + 1..]
  }

  lemma OnlyAt(s: seq<Node>, i: nat)
    requires Distinct(s) && i < |s|
    ensures forall k :: 0 <= k < |s| && k != i ==> s[k] != s[i]
  {
  }

  lemma DistinctWithout(s: seq<Node>, i: nat)
    requires Distinct(s) && i < |s|
    ensures Distinct(Without(s, i)) && s[i] !in Without(s, i)
  {
    var w := Without(s, i);
    forall j, k | 0 <= j < k < |w|
      ensures w[j] != w[k]
    {
      assert w[j] == s[if j < i then j else j + 1] && w[k] == s[if k < i then k else k + 1];
    }
    forall k | 0 <= k < |w|
      ensures w[k] != s[i]
    {
      assert w[k] == s[if k < i then k else k + 1];
    }
  }

  lemma ApartAt(s: seq<Node>, t: seq<Node>)
    requires Apart(s, t)
    ensures forall k :: 0 <= k < |t| ==> t[k] !in s
    ensures forall k :: 0 <= k < |s| ==> s[k] !in t
  {
  }

  lemma InWithout(s: seq<Node>, i: nat, n: Node)
    requires i < |s|
    ensures n in s <==> n in Without(s, i) || n == s[i]
  {
    assert s == s[..i] + [s[i]] + s[i + 1..];
  }

  lemma ApartAfterMove(s: seq<Node>, t: seq<Node>, i: nat)
    requires Distinct(s) && Distinct(t) && Apart(s, t) && i < |s|
    ensures Distinct(Without(s, i)) && s[i] !in Without(s, i)
    ensures Apart(Without(s, i), [s[i]] + t) && Distinct([s[i]] + t)
    ensures Union(Without(s, i), [s[i]] + t) == Union(s, t)
  {
    DistinctWithout(s, i);
    forall n | n in Without(s, i)
      ensures n !in [s[i]] + t
    {
      InWithout(s, i, n);
    }
    assert s[i] !in t;
    forall n
      ensures n in s <==> n in Without(s, i) || n == s[i]
    {
      InWithout(s, i, n);
    }
  }

  lemma DropFirst(s: seq<Node>, t: seq<Node>)
    requires Forward(t) && Distinct(t) && Apart(s, t) && t != []
    ensures Forward(t[1..]) && Distinct(t[1..]) && Apart(s, t[1..])
    ensures t[0] !in t[1..] && t[0] !in s && t[0].next == At(t[1..], 0)
  {
  }

  /** One more node makes a longer chain of different nodes, apart from the other one. */
  lemma OneMore(s: seq<Node>, t: seq<Node>, n: Node)
    requires Distinct(s) && Apart(s, t) && n !in s && n !in t
    ensures Distinct(s + [n]) && Apart(s + [n], t) && Distinct([n] + s) && Apart([n] + s, t)
  {
  }

  lemma LinkedBehind(s: seq<Node>, n: Node)
    requires Backward(s) && n.next == null && n.prev == At(s, |s| - 1)
    requires forall k :: 0 <= k < |s| ==> s[k].next == if k == |s| - 1 then n else At(s, k + 1)
    ensures Forward(s + [n]) && Backward(s + [n])
  {
  }

  lemma LinkedInFront(s: seq<Node>, n: Node)
    requires Forward(s) && n.prev == null && n.next == At(s, 0)
    requires forall k :: 0 <= k < |s| ==> s[k].prev == if k == 0 then n else At(s, k - 1)
    ensures Forward([n] + s) && Backward([n] + s)
  {
  }

  twostate lemma SameItems(s: seq<Node>)
    requires forall k :: 0 <= k < |s| ==> s[k].item == old(s[k].item)
    ensures Items(s) == old(Items(s))
  {
    assert forall k :: 0 <= k < |s| ==> Items(s)[k] == old(Items(s))[k];
  }

  lemma ItemsBehind(s: seq<Node>, n: Node)
    ensures Items(s + [n]) == Items(s) + [n.item] && Items([n] + s) == [n.item] + Items(s)
  {
  }

  lemma ItemsWithout(s: seq<Node>, i: nat)
    requires i < |s|
    ensures Items(Without(s, i)) == Without(Items(s), i)
  {
    var w, v := Without(s, i), Without(Items(s), i);
    forall k | 0 <= k < |w|
      ensures Items(w)[k] == v[k]
    {
      WithoutAt(s, i, k);
      WithoutAt(Items(s), i, k);
      hide Items, Without;
    }
  }

  lemma WithoutAt<T>(s: seq<T>, i: nat, k: nat)
    requires i < |s| && k < |s| - 1
    ensures Without(s, i)[k] == s[if k < i then k else k + 1]
  {
  }

  /** The ends of a chain without one node. */
  lemma EndsWithout(s: seq<Node>, i: nat)
    requires i < |s|
    ensures At(Without(s, i), 0) == if i == 0 then At(s, 1) else At(s, 0)
    ensures At(Without(s, i), |s| - 2) == if i == |s| - 1 then At(s, |s| - 2) else At(s, |s| - 1)
  {
  }

  lemma NoEnds(s: seq<Node>)
    ensures (At(s, 0) == null) == (s == []) == (At(s, |s| - 1) == null)
    ensures s != [] ==> At(s, 0) == s[0] && At(s, |s| - 1) == s[|s| - 1]
  {
  }

  lemma EndsBehind(s: seq<Node>, n: Node)
    ensures At(s + [n], 0) == (if s == [] then n else At(s, 0)) && At(s + [n], |s|) == n
    ensures At([n] + s, |s|) == (if s == [] then n else At(s, |s| - 1)) && At([n] + s, 0) == n
  {
  }

  lemma LinksAt(s: seq<Node>, i: nat)
    requires Forward(s) && Backward(s) && i < |s|
    ensures s[i].next == At(s, i + 1) && s[i].prev == At(s, i - 1)
  {
  }

  lemma WithoutEnds<T>(s: seq<T>)
    requires s != []
    ensures Without(s, 0) == s[1..] && Without(s, |s| - 1) == s[..|s| - 1]
  {
  }

  function Union(s: seq<Node>, t: seq<Node>): set<Node> {
    (set n | n in s) + set n | n in t
  }

  /** What the list owns after the first spare node, or a new one, was added to it. */
  lemma OwnedAfter(s: seq<Node>, t: seq<Node>, t': seq<Node>, n: Node)
    requires if t == [] then t' == [] else n == t[0] && t' == t[1..]
    ensures Union(s + [n], t') == Union(s, t) + {n} == Union([n] + s, t')
  {
    assert t != [] ==> t == [n] + t';
  }

  /** The links of a chain with the node at `i` bridged over; its own links do not matter. */
  ghost predicate Bridged(s: seq<Node>, i: nat)
    reads s`next, s`prev
  {
    && (forall k :: 0 <= k < |s| && k != i ==> s[k].next == if k + 1 == i then At(s, i + 1) else At(s, k + 1))
    && (forall k :: 0 <= k < |s| && k != i ==> s[k].prev == if k == i + 1 then At(s, i - 1) else At(s, k - 1))
  }

  lemma BridgedIsChain(s: seq<Node>, i: nat)
    requires i < |s| && Bridged(s, i)
    ensures Forward(Without(s, i)) && Backward(Without(s, i))
  {
    var w := Without(s, i);
    forall k | 0 <= k < |w|
      ensures w[k].next == At(w, k + 1) && w[k].prev == At(w, k - 1)
    {
      var j := if k < i then k else k + 1;
      assert w[k] == s[j];
      assert k + 1 < |w| ==> w[k + 1] == s[if k + 1 < i then k + 1 else k + 2];
      assert k > 0 ==> w[k - 1] == s[if k - 1 < i then k - 1 else k];
    }
  }

  /** Bridges a node over; no other chain `t` changes. */
  method Bridge(node: Node, ghost s: seq<Node>, ghost i: nat, ghost t: seq<Node>)
    requires Forward(s) && Backward(s) && Distinct(s) && i < |s| && s[i] == node
    requires Forward(t) && forall k :: 0 <= k < |t| ==> t[k] !in s
    modifies s`next, s`prev
    ensures Bridged(s, i) && Forward(t)
  {
    OnlyAt(s, i);
    if i > 0 { OnlyAt(s, i - 1); }
    if i + 1 < |s| { OnlyAt(s, i + 1); }
    hide Distinct;
    if node.prev != null {
      node.prev.next := node.next;
    }
    assert forall k :: 0 <= k < |s| && k != i ==> s[k].next == if k + 1 == i then At(s, i + 1) else At(s, k + 1);
    if node.next != null {
      node.next.prev := node.prev;
    }
  }

  class List {
    var head: Node?
    var tail: Node?
    var used: Node?
    ghost var nodes: seq<Node>
    ghost var spare: seq<Node>

    /** The nodes of the list and the spare nodes: two chains that share no node. */
    ghost predicate Chained()
      reads this`nodes, this`spare, this`used, nodes`next, nodes`prev, spare`next
    {
      && Forward(nodes) && Backward(nodes) && Distinct(nodes)
      && Forward(spare) && Distinct(spare) && used == At(spare, 0)
      && Apart(nodes, spare)
    }

    ghost predicate Valid()
      reads this, nodes`next, nodes`prev, spare`next
    {
      Chained() && head == At(nodes, 0) && tail == At(nodes, |nodes| - 1)
    }

    ghost function Contents(): seq<Pointer>
      reads this`nodes, nodes`item
    {
      Items(nodes)
    }

    /** All nodes the list owns. */
    ghost function Owned(): set<Node>
      reads this`nodes, this`spare
    {
      Union(nodes, spare)
    }

    constructor ()
      ensures Valid() && Contents() == [] && Owned() == {}
    {
      head, tail, used := null, null, null;
      nodes, spare := [], [];
    }

    /** Takes a spare node, or a new one when there is none. */
    method NewNode() returns (node: Node)
      requires Chained()
      modifies this`used, this`spare, spare`next, spare`prev
      ensures Chained() && node !in nodes && node !in spare
      ensures node.next == null && node.prev == null
      ensures if old(spare) == [] then fresh(node) && spare == [] else node == old(spare)[0] && spare == old(spare)[1..]
      ensures Distinct(nodes + [node]) && Apart(nodes + [node], spare)
      ensures Distinct([node] + nodes) && Apart([node] + nodes, spare)
      ensures Union(nodes + [node], spare) == old(Owned()) + {node} == Union([node] + nodes, spare)
    {
      ghost var t := spare;
      if used == null {
        node := new Node();
      } else {
        DropFirst(nodes, spare);
        node := used;
        used := used.next;
        spare := spare[1..];
      }
      OneMore(nodes, spare, node);
      OwnedAfter(nodes, t, spare, node);
      hide Distinct, Apart, Union;
      Detach(node, nodes, spare);
    }

    static method Detach(node: Node, ghost s: seq<Node>, ghost t: seq<Node>)
      requires node !in s && node !in t && Forward(s) && Backward(s) && Forward(t)
      modifies node`next, node`prev
      ensures node.next == null && node.prev == null && Forward(s) && Backward(s) && Forward(t)
    {
      node.next := null;
      node.prev := null;
    }

    /** Puts a node in front of the spare ones; no other chain `s` changes. */
    method PutSpare(node: Node, ghost s: seq<Node>, ghost t: seq<Node>)
      requires node !in s && Forward(s) && Backward(s)
      requires node !in t && Forward(t) && used == At(t, 0)
      modifies this`used, node`next
      ensures Forward(s) && Backward(s) && Forward([node] + t) && used == At([node] + t, 0)
    {
      node.next := used;
      used := node;
    }

    /** The assignments of `DelNode`, in a list whose own records are not changed yet. */
    method UnlinkAt(node: Node, ghost i: nat)
      requires Chained() && i < |nodes| && nodes[i] == node
      modifies this`used, nodes`next, nodes`prev
      ensures Forward(Without(nodes, i)) && Backward(Without(nodes, i)) && Distinct(Without(nodes, i))
      ensures Forward([node] + spare) && Distinct([node] + spare) && used == At([node] + spare, 0)
      ensures Apart(Without(nodes, i), [node] + spare) && Union(Without(nodes, i), [node] + spare) == Owned()
    {
      MoveFacts(i);
      hide Distinct, Apart, Forward, Backward, Without, At, Union, Items;
      Unlink(node, nodes, i, spare);
    }

    method Unlink(node: Node, ghost s: seq<Node>, ghost i: nat, ghost t: seq<Node>)
      requires Forward(s) && Backward(s) && Distinct(s) && i < |s| && s[i] == node && node !in Without(s, i)
      requires Forward(t) && node !in t && used == At(t, 0) && forall k :: 0 <= k < |t| ==> t[k] !in s
      modifies this`used, s`next, s`prev
      ensures Forward(Without(s, i)) && Backward(Without(s, i)) && Forward([node] + t) && used == At([node] + t, 0)
    {
      hide Distinct, Forward, Backward, Bridged, Without, At;
      Bridge(node, s, i, t);
      BridgedIsChain(s, i);
      PutSpare(node, Without(s, i), t);
    }

    lemma MoveFacts(i: nat)
      requires Chained() && i < |nodes|
      ensures Distinct(Without(nodes, i)) && Distinct([nodes[i]] + spare)
      ensures Apart(Without(nodes, i), [nodes[i]] + spare)
      ensures Union(Without(nodes, i), [nodes[i]] + spare) == Owned()
      ensures nodes[i] !in Without(nodes, i) && nodes[i] !in spare
      ensures forall k :: 0 <= k < |spare| ==> spare[k] !in nodes
    {
      ApartAfterMove(nodes, spare, i);
      ApartAt(nodes, spare);
    }

    /** Unlinks the node at `i` and makes it the first spare node. */
    method DelNode(node: Node, ghost i: nat)
      requires Chained() && i < |nodes| && nodes[i] == node
      modifies this`used, this`nodes, this`spare, nodes`next, nodes`prev
      ensures Chained() && nodes == Without(old(nodes), i) && spare == [node] + old(spare)
      ensures Owned() == old(Owned())
    {
      hide Distinct, Apart, Forward, Backward, Without, At, Union, Items;
      UnlinkAt(node, i);
      nodes, spare := Without(nodes, i), [node] + spare;
    }

    method AddTail(item: Pointer) returns (node: Node)
      requires Valid()
      modifies this, nodes`next, spare
      ensures Valid() && nodes == old(nodes) + [node] && Owned() == old(Owned()) + {node}
      ensures node !in old(nodes) && (fresh(node) <==> old(spare) == [])
      ensures Contents() == old(Contents()) + [item]
    {
      hide Distinct, Apart, Union, Forward, Backward, Items, At;
      ghost var s := nodes;
      NoEnds(s);
      node := NewBehind(item);
      EndsBehind(s, node);
      if tail == null {
        head := node;
      }
      tail := node;
      nodes := s + [node];
    }

    /** A new node behind the last one; head and tail are not moved yet. */
    method NewBehind(item: Pointer) returns (node: Node)
      requires Valid()
      modifies this`used, this`spare, nodes`next, spare
      ensures Forward(nodes + [node]) && Backward(nodes + [node]) && Distinct(nodes + [node])
      ensures Forward(spare) && Distinct(spare) && used == At(spare, 0) && Apart(nodes + [node], spare)
      ensures node !in nodes && (fresh(node) <==> old(spare) == [])
      ensures Union(nodes + [node], spare) == old(Owned()) + {node} && Items(nodes + [node]) == old(Contents()) + [item]
    {
      hide Distinct, Apart, Union, Forward, Backward, Items, At;
      node := NewNode();
      LinkBehind(node, tail, item, nodes, spare);
    }

    /** A new node in front of the first one; head and tail are not moved yet. */
    method NewInFront(item: Pointer) returns (node: Node)
      requires Valid()
      modifies this`used, this`spare, nodes`prev, spare
      ensures Forward([node] + nodes) && Backward([node] + nodes) && Distinct([node] + nodes)
      ensures Forward(spare) && Distinct(spare) && used == At(spare, 0) && Apart([node] + nodes, spare)
      ensures node !in nodes && (fresh(node) <==> old(spare) == [])
      ensures Union([node] + nodes, spare) == old(Owned()) + {node} && Items([node] + nodes) == [item] + old(Contents())
    {
      hide Distinct, Apart, Union, Forward, Backward, Items, At;
      node := NewNode();
      LinkInFront(node, head, item, nodes, spare);
    }

    method AddHead(item: Pointer) returns (node: Node)
      requires Valid()
      modifies this, nodes`prev, spare
      ensures Valid() && nodes == [node] + old(nodes) && Owned() == old(Owned()) + {node}
      ensures node !in old(nodes) && (fresh(node) <==> old(spare) == [])
      ensures Contents() == [item] + old(Contents())
    {
      hide Distinct, Apart, Union, Forward, Backward, Items, At;
      ghost var s := nodes;
      NoEnds(s);
      node := NewInFront(item);
      EndsBehind(s, node);
      if head == null {
        tail := node;
      }
      head := node;
      nodes := [node] + s;
    }

    /** The assignments of `AddTail` to the nodes: the new node behind the last one. */
    static method LinkBehind(node: Node, last: Node?, item: Pointer, ghost s: seq<Node>, ghost t: seq<Node>)
      requires Forward(s) && Backward(s) && Distinct(s) && Apart(s, t) && Forward(t)
      requires last == At(s, |s| - 1) && node !in s && node !in t && node.next == null
      modifies node`prev, node`item, s`next
      ensures Forward(s + [node]) && Backward(s + [node]) && Forward(t)
      ensures Items(s + [node]) == old(Items(s)) + [item]
    {
      ApartAt(s, t);
      if s != [] { OnlyAt(s, |s| - 1); }
      hide Distinct, Apart;
      node.prev := last;
      node.item := item;
      if last != null {
        last.next := node;
      }
      LinkedBehind(s, node);
      SameItems(s);
      ItemsBehind(s, node);
    }

    /** The assignments of `AddHead` to the nodes: the new node in front of the first one. */
    static method LinkInFront(node: Node, first: Node?, item: Pointer, ghost s: seq<Node>, ghost t: seq<Node>)
      requires Forward(s) && Backward(s) && Distinct(s) && Forward(t)
      requires first == At(s, 0) && node !in s && node !in t && node.prev == null
      modifies node`next, node`item, s`prev
      ensures Forward([node] + s) && Backward([node] + s) && Forward(t)
      ensures Items([node] + s) == [item] + old(Items(s))
    {
      if s != [] { OnlyAt(s, 0); }
      hide Distinct;
      node.next := first;
      node.item := item;
      if first != null {
        first.prev := node;
      }
      LinkedInFront(s, node);
      SameItems(s);
      ItemsBehind(s, node);
    }

    method RemoveTail() returns (item: Pointer)
      requires Valid()
      modifies this, nodes`next, nodes`prev
      ensures Valid() && Owned() == old(Owned())
      ensures old(nodes) == [] ==> item == NULL && nodes == [] && spare == old(spare)
      ensures old(nodes) != [] ==> nodes == old(nodes)[..|old(nodes)| - 1]
      ensures old(nodes) != [] ==> Contents() == old(Contents())[..|old(nodes)| - 1]
      ensures old(nodes) != [] ==> item == old(Contents())[|old(nodes)| - 1]
    {
      hide Distinct, Apart, Union, Forward, Backward, At, Without, Items;
      ghost var s := nodes;
      NoEnds(s);
      if tail == null {
        return NULL;
      }
      RemoveFacts(|s| - 1);
      WithoutEnds(s);
      WithoutEnds(Items(s));
      var temp := tail;
      tail := tail.prev;
      item := temp.item;
      DelNode(temp, |s| - 1);
      NoEnds(nodes);
      if tail == null {
        head := null;
      }
    }

    method RemoveHead() returns (item: Pointer)
      requires Valid()
      modifies this, nodes`next, nodes`prev
      ensures Valid() && Owned() == old(Owned())
      ensures old(nodes) == [] ==> item == NULL && nodes == [] && spare == old(spare)
      ensures old(nodes) != [] ==> nodes == old(nodes)[1..] && Contents() == old(Contents())[1..]
      ensures old(nodes) != [] ==> item == old(Contents())[0]
    {
      hide Distinct, Apart, Union, Forward, Backward, At, Without, Items;
      ghost var s := nodes;
      NoEnds(s);
      if head == null {
        return NULL;
      }
      RemoveFacts(0);
      WithoutEnds(s);
      WithoutEnds(Items(s));
      var temp := head;
      head := head.next;
      item := temp.item;
      DelNode(temp, 0);
      NoEnds(nodes);
      if head == null {
        tail := null;
      }
    }

    /** What is known of the node at `i` before it is removed. */
    lemma RemoveFacts(i: nat)
      requires Chained() && i < |nodes|
      ensures nodes[i].next == At(nodes, i + 1) && nodes[i].prev == At(nodes, i - 1)
      ensures Items(Without(nodes, i)) == Without(Items(nodes), i) && Items(nodes)[i] == nodes[i].item
      ensures At(Without(nodes, i), 0) == if i == 0 then At(nodes, 1) else At(nodes, 0)
      ensures At(Without(nodes, i), |nodes| - 2) ==
        if i == |nodes| - 1 then At(nodes, |nodes| - 2) else At(nodes, |nodes| - 1)
    {
      hide Distinct, Apart, Forward, Backward, At, Without;
      LinksAt(nodes, i);
      ItemsWithout(nodes, i);
      EndsWithout(nodes, i);
    }

    /** Where a node is. */
    lemma Place(pos: Node) returns (i: nat)
      requires Chained() && pos in nodes
      ensures i < |nodes| && nodes[i] == pos
      ensures forall k :: 0 <= k < |nodes| && nodes[k] == pos ==> k == i
      ensures (At(nodes, 0) == pos) == (i == 0) && (At(nodes, |nodes| - 1) == pos) == (i == |nodes| - 1)
    {
      hide Forward, Backward, Apart;
      i :| i < |nodes| && nodes[i] == pos;
      OnlyAt(nodes, i);
    }

    /** Removes a node of the list; its neighbours become neighbours. */
    method RemoveAt(pos: Node?) returns (item: Pointer)
      requires Valid() && (pos != null ==> pos in nodes)
      modifies this, nodes`next, nodes`prev
      ensures Valid() && Owned() == old(Owned())
      ensures pos == null ==> item == NULL && nodes == old(nodes) && spare == old(spare)
      ensures pos != null ==> forall i :: 0 <= i < |old(nodes)| && old(nodes)[i] == pos ==>
        nodes == Without(old(nodes), i) && Contents() == Without(old(Contents()), i) && item == old(Contents())[i]
    {
      hide Distinct, Apart, Union, Forward, Backward, At, Without, Items;
      if pos == null {
        return NULL;
      }
      ghost var s := nodes;
      ghost var i := Place(pos);
      RemoveFacts(i);
      if head == pos {
        head := pos.next;
      }
      if tail == pos {
        tail := pos.prev;
      }
      item := pos.item;
      DelNode(pos, i);
      SameItems(s);
      ItemsWithout(s, i);
    }

    /** Every node becomes a spare one. */
    method RemoveAll()
      requires Valid()
      modifies this, nodes`next, nodes`prev
      ensures Valid() && nodes == [] && Owned() == old(Owned())
    {
      hide Distinct, Apart, Union, Forward, Backward, At, Without, Items;
      NoEnds(nodes);
      while head != null
        invariant Chained() && head == At(nodes, 0) && Owned() == old(Owned())
        invariant (head == null) == (nodes == [])
        invariant forall k :: 0 <= k < |nodes| ==> nodes[k] in old(nodes)
        decreases |nodes|
      {
        NoEnds(nodes);
        RemoveFacts(0);
        WithoutEnds(nodes);
        var pos := head.next;
        DelNode(head, 0);
        head := pos;
        NoEnds(nodes);
      }
      tail := null;
      NoEnds(nodes);
    }

    /**
     The first node with this item, from `after` on (itself included) or from the head. `start`
     is the place of `after`, and `at` the place of the result.
    */
    method Find(item: Pointer, after: Node?, ghost start: nat) returns (pos: Node?, ghost at: nat)
      requires Valid() && if after == null then start == 0 else start < |nodes| && nodes[start] == after
      ensures pos == null ==> forall k :: start <= k < |nodes| ==> Contents()[k] != item
      ensures pos != null ==> start <= at < |nodes| && nodes[at] == pos && Contents()[at] == item
      ensures pos != null ==> forall k :: start <= k < at ==> Contents()[k] != item
    {
      hide Distinct, Apart, Union, Backward, Items;
      pos := if after == null then head else after;
      at := start;
      while pos != null
        invariant start <= at <= |nodes| && pos == At(nodes, at)
        invariant forall k :: start <= k < at ==> Contents()[k] != item
        decreases |nodes| - at
      {
        if pos.item == item {
          return pos, at;
        }
        pos := pos.next;
        at := at + 1;
      }
    }
  }
}
