// The linked queue of accepted descriptors.

module ConnQueue {

  class Node {
    var fd: int
    var next: Node?

    constructor (fd: int)
      ensures this.fd == fd && next == null
    {
      this.fd, next := fd, null;
    }
  }

  /**
   * head, end and size as the C structure has them; `spine` lists the nodes from head
   * to end, and `Contents` is the sequence of descriptors they hold.
   */
  class Queue {
    var head: Node?
    var end: Node?
    var size: nat
    ghost var spine: seq<Node>

    ghost predicate Valid()
      reads this, spine
    {
      && size == |spine|
      && (forall i, j :: 0 <= i < j < |spine| ==> spine[i] != spine[j])
      && (forall i, j :: 0 <= i && j == i + 1 && j < |spine| ==> spine[i].next == spine[j])
      && (size == 0 ==> head == null && end == null)
      && (size > 0 ==> head == spine[0] && end == spine[size - 1] && end.next == null)
    }

    ghost function Contents(): seq<int>
      reads this, spine
    {
      Fds(spine)
    }

    lemma SizeOfContents()
      requires Valid()
      ensures |Contents()| == size
    {
    }

    constructor ()
      ensures Valid() && Contents() == [] && spine == []
    {
      head, end, size := null, null, 0;
      spine := [];
    }

    static ghost function Fds(nodes: seq<Node>): (fds: seq<int>)
      reads nodes
      ensures |fds| == |nodes|
      ensures forall i :: 0 <= i < |nodes| ==> fds[i] == nodes[i].fd
    {
      if nodes == [] then [] else [nodes[0].fd] + Fds(nodes[1..])
    }

    /** enQueue */
    method Enqueue(fd: int)
      requires Valid()
      modifies this, spine
      ensures Valid() && Contents() == old(Contents()) + [fd]
      ensures forall n :: n in spine ==> n in old(spine) || fresh(n)
    {
      var node := new Node(fd);
      if size == 0 {
        head := node;
        end := node;
      } else {
        end.next := node;
        end := node;
      }
      size := size + 1;
      spine := spine + [node];
    }

    /** deQueue: the oldest descriptor, or -1 when there is none. */
    method Dequeue() returns (fd: int)
      requires Valid()
      modifies this
      ensures Valid()
      ensures old(Contents()) == [] ==> fd == -1 && Contents() == []
      ensures old(Contents()) != [] ==> fd == old(Contents())[0] && Contents() == old(Contents())[1..]
      ensures forall n :: n in spine ==> n in old(spine)
    {
      if size == 0 {
        return -1;
      }
      var p := head;
      ghost var nodes := spine;
      assert size > 1 ==> nodes[0].next == nodes[1];
      fd := p.fd;
      head := p.next;
      if size == 1 {
        end := null;
      }
      size := size - 1;
      spine := nodes[1..];
      assert forall i :: 0 <= i < |spine| ==> spine[i] == nodes[i + 1];
      assert size > 0 ==> spine[size - 1] == nodes[size] == end;
    }
  }
}
