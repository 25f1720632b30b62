/**
 A singly linked list with a pointer to its last link, as TwinSock keeps its requests and sockets.  The
 C code points at the pointer that is NULL; here the last node is pointed at, or nothing if the list is
 empty.  Appending goes through that pointer, and removing the last node must move it back,
 the one case a removal must not forget.
 */
module TailList {
  import opened Wrappers

  // ---------------------------------------------------------------------------------------------
  // What the searches find
  // ---------------------------------------------------------------------------------------------

  /** The first element for which `p` holds. */
  function First<T>(s: seq<T>, p: T -> bool): (r: Option<T>)
    ensures r.Some? ==> r.value in s && p(r.value)
    ensures r.None? ==> forall x <- s :: !p(x)
  {
    if s == [] then None else if p(s[0]) then Some(s[0]) else First(s[1..], p)
  }

  /** The rest, when the first element for which `p` holds is taken out. */
  function Without<T>(s: seq<T>, p: T -> bool): seq<T> {
    if s == [] then [] else if p(s[0]) then s[1..] else [s[0]] + Without(s[1..], p)
  }

  function Drop<T>(s: seq<T>, i: nat): (r: seq<T>)
    requires i < |s|
    ensures |r| == |s| - 1
    ensures forall j :: 0 <= j < i ==> r[j] == s[j]
    ensures forall j :: i <= j < |r| ==> r[j] == s[j + 1]
  {
    s[..i] + s[i + 1..]
  }

  /** Where the first match is. */
  function Place<T>(s: seq<T>, p: T -> bool): (i: nat)
    ensures First(s, p).Some? ==> i < |s| && p(s[i]) && forall j :: 0 <= j < i ==> !p(s[j])
  {
    if s == [] || p(s[0]) then 0
    else
      var i := 1 + Place(s[1..], p);
      assert forall j :: 1 <= j <= i < |s| ==> s[j] == s[1..][j - 1];
      i
  }

  lemma {:induction false} FirstAfter<T>(front: seq<T>, rest: seq<T>, p: T -> bool)
    requires forall x <- front :: !p(x)
    ensures First(front + rest, p) == First(rest, p)
    ensures Without(front + rest, p) == front + Without(rest, p)
  {
    if front == [] {
      assert front + rest == rest && front + Without(rest, p) == Without(rest, p);
    } else {
      assert (front + rest)[1..] == front[1..] + rest;
      FirstAfter(front[1..], rest, p);
      assert [front[0]] + (front[1..] + Without(rest, p)) == front + Without(rest, p);
    }
  }

  // ---------------------------------------------------------------------------------------------
  // The list
  // ---------------------------------------------------------------------------------------------

  class Node<T> {
    const value: T
    var next: Node?<T>

    constructor (value: T)
      ensures this.value == value && next == null
    {
      this.value := value;
      next := null;
    }
  }

  /** The node at `i`, or null beyond the last. */
  function NodeAt<T>(nodes: seq<Node<T>>, i: nat): Node?<T> { if i < |nodes| then nodes[i] else null }

  predicate Distinct<T(==)>(s: seq<T>) { forall i, j :: 0 <= i < j < |s| ==> s[i] != s[j] }

  ghost predicate Linked<T>(head: Node?<T>, nodes: seq<Node<T>>)
    reads nodes
  {
    && Distinct(nodes)
    && head == NodeAt(nodes, 0)
    && forall i :: 0 <= i < |nodes| ==> nodes[i].next == NodeAt(nodes, i + 1)
  }

  ghost function Values<T>(nodes: seq<Node<T>>): (s: seq<T>)
    ensures |s| == |nodes| && forall i :: 0 <= i < |s| ==> s[i] == nodes[i].value
  {
    seq(|nodes|, i requires 0 <= i < |nodes| => nodes[i].value)
  }

  class List<T> {
    var head: Node?<T>

    /** The node whose link the next node goes into; null stands for the head. */
    var tail: Node?<T>
    ghost var nodes: seq<Node<T>>

    ghost predicate Valid()
      reads this, nodes
    {
      && Linked(head, nodes)
      && tail == if nodes == [] then null else nodes[|nodes| - 1]
    }

    ghost function Contents(): (s: seq<T>)
      reads this
    {
      Values(nodes)
    }

    constructor ()
      ensures Valid() && nodes == [] && Contents() == []
    {
      head, tail, nodes := null, null, [];
    }

    /** The new element goes where the tail pointer says. */
    method Append(x: T)
      requires Valid()
      modifies this, nodes
      ensures Valid() && Contents() == old(Contents()) + [x]
      ensures forall n <- nodes :: n in old(nodes) || fresh(n)
    {
      hide Linked, Distinct;
      Chain(head, nodes);
      var node := new Node(x);
      if tail == null {
        head := node;
      } else {
        tail.next := node;
      }
      tail := node;
      nodes := nodes + [node];
      Extended(head, nodes[..|nodes| - 1], node);
    }

    /** Walks down the list to the first match. */
    method Search(p: T -> bool) returns (before: Node?<T>, node: Node?<T>, ghost i: nat)
      requires Valid()
      ensures i <= |nodes| && node == NodeAt(nodes, i)
      ensures before == if i == 0 then null else nodes[i - 1]
      ensures forall j :: 0 <= j < i ==> !p(nodes[j].value)
      ensures node != null ==> p(node.value)
    {
      before, node, i := null, head, 0;
      while node != null && !p(node.value)
        invariant i <= |nodes| && node == NodeAt(nodes, i)
        invariant before == if i == 0 then null else nodes[i - 1]
        invariant forall j :: 0 <= j < i ==> !p(nodes[j].value)
        decreases |nodes| - i
      {
        before, node, i := node, node.next, i + 1;
      }
    }

    method Find(p: T -> bool) returns (r: Option<T>)
      requires Valid()
      ensures r == First(Contents(), p)
    {
      var before, node;
      ghost var i;
      before, node, i := Search(p);
      Found(Contents(), i, p);
      r := if node == null then None else Some(node.value);
    }

    /** The `i`th node is unlinked, and the tail pointer moves back if it was the last. */
    method Unlink(before: Node?<T>, node: Node<T>, ghost i: nat)
      requires Valid() && i < |nodes| && node == nodes[i] && before == if i == 0 then null else nodes[i - 1]
      modifies this, nodes
      ensures Valid() && nodes == Drop(old(nodes), i)
    {
      hide Drop, Linked;
      ghost var was := nodes;
      Chain(head, was);
      if before == null {
        head := node.next;
      } else {
        before.next := node.next;
      }
      if node.next == null {
        tail := before;
      }
      nodes := Drop(was, i);
      Relinked(head, was, i);
    }

    /** The first match is taken out. */
    method Remove(p: T -> bool) returns (r: Option<T>)
      requires Valid()
      modifies this, nodes
      ensures Valid() && r == First(old(Contents()), p) && Contents() == Without(old(Contents()), p)
      ensures forall n <- nodes :: n in old(nodes)
    {
      hide First, Without, Linked;
      var before, node;
      ghost var i;
      before, node, i := Search(p);
      Found(Contents(), i, p);
      if node == null {
        return None;
      }
      r := Some(node.value);
      Unlink(before, node, i);
    }
  }

  lemma Chain<T>(head: Node?<T>, nodes: seq<Node<T>>)
    requires Linked(head, nodes)
    ensures Distinct(nodes) && forall j :: 0 <= j < |nodes| ==> nodes[j].next == NodeAt(nodes, j + 1)
    ensures head == NodeAt(nodes, 0)
  {
  }

  /** One node is added to the chain. */
  lemma Extended<T>(head: Node?<T>, nodes: seq<Node<T>>, node: Node<T>)
    requires Distinct(nodes) && node !in nodes
    requires head == NodeAt(nodes + [node], 0) && node.next == null
    requires forall j :: 0 <= j < |nodes| ==> nodes[j].next == NodeAt(nodes + [node], j + 1)
    ensures Linked(head, nodes + [node])
  {
    var longer := nodes + [node];
    forall j | 0 <= j < |longer| ensures longer[j].next == NodeAt(longer, j + 1) {
      if j < |nodes| { assert longer[j] == nodes[j]; }
    }
  }

  /** One node is left out of the chain. */
  lemma Relinked<T>(head: Node?<T>, nodes: seq<Node<T>>, i: nat)
    requires i < |nodes| && Distinct(nodes)
    requires head == NodeAt(nodes, if i == 0 then 1 else 0)
    requires forall j :: 0 <= j < |nodes| ==>
               nodes[j].next == if j + 1 == i then NodeAt(nodes, i + 1) else NodeAt(nodes, j + 1)
    ensures Linked(head, Drop(nodes, i))
  {
    var rest := Drop(nodes, i);
    forall j | 0 <= j < |rest| ensures rest[j].next == NodeAt(rest, j + 1) {
      if j < i {
        assert rest[j] == nodes[j];
      } else {
        assert rest[j] == nodes[j + 1];
      }
    }
  }

  lemma Found<T>(s: seq<T>, i: nat, p: T -> bool)
    requires i <= |s| && (forall j :: 0 <= j < i ==> !p(s[j])) && (i < |s| ==> p(s[i]))
    ensures First(s, p) == if i < |s| then Some(s[i]) else None
    ensures Without(s, p) == if i < |s| then Drop(s, i) else s
  {
    hide First, Without;
    FirstAfter(s[..i], s[i..], p);
    assert s[..i] + s[i..] == s;
    AtFront(s[i..], p);
  }

  lemma AtFront<T>(s: seq<T>, p: T -> bool)
    requires s != [] ==> p(s[0])
    ensures First(s, p) == if s != [] then Some(s[0]) else None
    ensures Without(s, p) == if s != [] then s[1..] else []
  {
  }

  /** Taking one entry out leaves the others, each once. */
  lemma TakenOut<T>(s: seq<T>, p: T -> bool)
    requires First(s, p).Some?
    ensures var i := Place(s, p);
      && i < |s| && p(s[i]) && (forall j :: 0 <= j < i ==> !p(s[j]))
      && First(s, p) == Some(s[i]) && Without(s, p) == Drop(s, i)
  {
    hide First, Without, Drop;
    PlaceIsFirst(s, p);
    Found(s, Place(s, p), p);
  }

  lemma PlaceIsFirst<T>(s: seq<T>, p: T -> bool)
    requires First(s, p).Some?
    ensures var i := Place(s, p); i < |s| && p(s[i]) && forall j :: 0 <= j < i ==> !p(s[j])
  {
  }

  /** A match with none before it is the first. */
  lemma PlaceIs<T>(s: seq<T>, p: T -> bool, i: nat)
    requires i < |s| && p(s[i]) && forall j :: 0 <= j < i ==> !p(s[j])
    ensures Place(s, p) == i && First(s, p) == Some(s[i])
  {
    hide First, Place;
    Found(s, i, p);
    PlaceIsFirst(s, p);
  }

  lemma NothingTaken<T>(s: seq<T>, p: T -> bool)
    requires First(s, p).None?
    ensures Without(s, p) == s
  {
    Found(s, |s|, p);
  }
}
