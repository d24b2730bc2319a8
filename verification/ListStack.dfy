// The linked stack of ListBaseStack.c, shared by the compiler, the RPN machine and the tree builder.
module ListStack {
  import opened Wrappers

  class Node<T> {
    const data: T
    const next: Node?<T>

    constructor (data: T, next: Node?<T>)
      ensures this.data == data && this.next == next
    {
      this.data := data;
      this.next := next;
    }
  }

  ghost function Values<T>(nodes: seq<Node<T>>): seq<T> {
    seq(|nodes|, i requires 0 <= i < |nodes| => nodes[i].data)
  }

  // Following next from head visits exactly these nodes.
  ghost predicate Linked<T>(head: Node?<T>, nodes: seq<Node<T>>) {
    if nodes == [] then head == null else head == nodes[0] && Linked(head.next, nodes[1..])
  }

  class Stack<T> {
    var head: Node?<T>
    ghost var spine: seq<Node<T>>  // the nodes reachable from head, top first

    ghost predicate Valid()
      reads this
    {
      Linked(head, spine)
    }

    // The stacked values, top first.
    ghost function Contents(): seq<T>
      reads this
    {
      Values(spine)
    }

    constructor ()
      ensures Valid() && Contents() == []
    {
      head := null;
      spine := [];
    }

    method SIsEmpty() returns (empty: bool)
      requires Valid()
      ensures empty <==> Contents() == []
    {
      empty := head == null;
    }

    method SPush(data: T)
      requires Valid()
      modifies this
      ensures Valid() && Contents() == [data] + old(Contents())
    {
      var newNode := new Node(data, head);
      spine := [newNode] + spine;
      assert spine[1..] == old(spine);
      head := newNode;
    }

    // None stands for the fault of reading through a null head.
    method SPop() returns (r: Option<T>)
      requires Valid()
      modifies this
      ensures Valid()
      ensures old(Contents()) == [] ==> r == None && Contents() == []
      ensures old(Contents()) != [] ==> r == Some(old(Contents())[0]) && Contents() == old(Contents())[1..]
    {
      if head == null {
        return None;
      }
      r := Some(head.data);
      head := head.next;
      spine := spine[1..];
    }

    // None stands for the exit taken on an empty stack.
    method SPeek() returns (r: Option<T>)
      requires Valid()
      ensures r == if Contents() == [] then None else Some(Contents()[0])
    {
      r := if head == null then None else Some(head.data);
    }
  }
}
