/** The linked stack of project1/stack.c. */
module CommandStack {

  /** A node never changes once it has been linked in. */
  class Node<T> {
    const element: T
    const next: Node?<T>
    ghost const contents: seq<T>

    constructor (element: T, next: Node?<T>)
      requires next != null ==> next.Valid()
      ensures Valid() && contents == [element] + Below(next)
    {
      this.element, this.next := element, next;
      this.contents := [element] + Below(next);
    }

    ghost predicate Valid()
      decreases |contents|
    {
      contents == [element] + Below(next) && (next != null ==> |next.contents| < |contents| && next.Valid())
    }

    static ghost function Below(n: Node?<T>): seq<T> {
      if n == null then [] else n.contents
    }
  }

  class Stack<T> {
    var next: Node?<T>

    ghost predicate Valid()
      reads this
    {
      next != null ==> next.Valid()
    }

    /** The elements, the most recently pushed one last. */
    ghost function Contents(): seq<T>
      reads this
    {
      BottomFirst(Node<T>.Below(next))
    }

    constructor ()
      ensures Valid() && Contents() == []
    {
      next := null;
    }

    method IsEmpty() returns (empty: bool)
      requires Valid()
      ensures empty <==> Contents() == []
    {
      SomethingLeft(Node<T>.Below(next));
      empty := next == null;
    }

    method Push(element: T)
      requires Valid()
      modifies this
      ensures Valid() && Contents() == old(Contents()) + [element]
    {
      next := new Node(element, next);
    }

    method Pop() returns (element: T)
      requires Valid() && Contents() != []
      modifies this
      ensures Valid() && old(Contents()) == Contents() + [element]
    {
      element := next.element;
      next := next.next;
      assert old(Node<T>.Below(next))[1..] == Node<T>.Below(next);
    }

    method Peer() returns (element: T)
      requires Valid() && Contents() != []
      ensures element == Contents()[|Contents()| - 1]
    {
      element := next.element;
    }

    /** Writing through the pointer that peer returns. */
    method SetTop(element: T)
      requires Valid() && Contents() != []
      modifies this
      ensures Valid() && Contents() == old(Contents())[..|old(Contents())| - 1] + [element]
    {
      assert Node<T>.Below(next)[1..] == Node<T>.Below(next.next);
      next := new Node(element, next.next);
    }
  }

  function BottomFirst<T>(s: seq<T>): seq<T> {
    if s == [] then [] else BottomFirst(s[1..]) + [s[0]]
  }

  lemma SomethingLeft<T>(s: seq<T>)
    ensures s != [] ==> BottomFirst(s) != []
  {
  }
}
