// The fixed-capacity containers of the library: a ring queue and an array stack.
module Containers {

  datatype Option<+T> = None | Some(value: T)

  /** A position at most one lap ahead, brought back into the ring. */
  function Wrapped(x: nat, capacity: nat): nat {
    if x < capacity then x else x - capacity
  }

  lemma WrapAround(x: nat, capacity: nat)
    requires capacity > 0
    requires x < 2 * capacity
    ensures x % capacity == Wrapped(x, capacity)
  {
    if x >= capacity {
      assert x == capacity * 1 + (x - capacity);
    }
  }

  /** Pushing on a bounded queue: refused exactly when the queue is full. */
  function Pushed<T>(s: seq<T>, x: T, capacity: nat): seq<T> {
    if |s| < capacity then s + [x] else s
  }

  class Queue<T(0)> {
    const list: array<T>
    var size: nat
    var front: nat
    var back: nat

    /** PopFront rewinds both cursors whenever they meet, so an empty queue always starts at slot 0. */
    ghost predicate Valid()
      reads this
    {
      && size <= list.Length
      && (size == 0 ==> front == back == 0)
      && (size > 0 ==> front < list.Length && back == Wrapped(front + size, list.Length))
    }

    ghost function Contents(): (s: seq<T>)
      requires Valid()
      reads this, list
      ensures |s| == size
      ensures forall i | 0 <= i < size :: s[i] == list[Wrapped(front + i, list.Length)]
    {
      seq(size, i requires 0 <= i < size && Valid() reads this, list => list[Wrapped(front + i, list.Length)])
    }

    ghost function Repr(): set<object> {
      {this, list}
    }

    constructor (capacity: nat)
      ensures Valid() && fresh(list)
      ensures list.Length == capacity && Contents() == []
    {
      list := new T[capacity];
      size, front, back := 0, 0, 0;
    }

    method PushBack(element: T) returns (ok: bool)
      requires Valid()
      modifies this, list
      ensures Valid()
      ensures ok == (|old(Contents())| < list.Length)
      ensures Contents() == Pushed(old(Contents()), element, list.Length)
    {
      if size == list.Length {
        return false;
      }
      list[back] := element;
      WrapAround(back + 1, list.Length);
      back := (back + 1) % list.Length;
      size := size + 1;
      assert Contents() == old(Contents()) + [element];
      return true;
    }

    method Front() returns (element: Option<T>)
      requires Valid()
      ensures element == if Contents() == [] then None else Some(Contents()[0])
    {
      if size == 0 {
        return None;
      }
      return Some(list[front]);
    }

    method PopFront()
      requires Valid()
      modifies this
      ensures Valid()
      ensures Contents() == if old(Contents()) == [] then [] else old(Contents())[1..]
    {
      if size == 0 {
        return;
      }
      WrapAround(front + 1, list.Length);
      front := (front + 1) % list.Length;
      // The cursors meet exactly when the last element has been taken out.
      assert (front == back) == (size == 1);
      if front == back {
        front, back := 0, 0;
      }
      size := size - 1;
      assert Contents() == old(Contents())[1..];
    }
  }

  class Stack<T(0)> {
    const list: array<T>
    var size: nat
    var top: int

    ghost predicate Valid()
      reads this
    {
      && size <= list.Length
      && top == size - 1
    }

    /** Bottom first. */
    ghost function Contents(): (s: seq<T>)
      requires Valid()
      reads this, list
      ensures |s| == size
    {
      list[..size]
    }

    ghost function Repr(): set<object> {
      {this, list}
    }

    constructor (capacity: nat)
      ensures Valid() && fresh(list)
      ensures list.Length == capacity && Contents() == []
    {
      list := new T[capacity];
      size, top := 0, -1;
    }

    method Push(element: T) returns (ok: bool)
      requires Valid()
      modifies this, list
      ensures Valid()
      ensures ok == (|old(Contents())| < list.Length)
      ensures Contents() == Pushed(old(Contents()), element, list.Length)
    {
      if list.Length <= size {
        return false;
      }
      top := top + 1;
      list[top] := element;
      size := size + 1;
      return true;
    }

    method Pop() returns (ok: bool)
      requires Valid()
      modifies this
      ensures Valid()
      ensures ok == (old(Contents()) != [])
      ensures Contents() == if ok then old(Contents()[..|Contents()| - 1]) else []
    {
      if size <= 0 {
        return false;
      }
      top := top - 1;
      size := size - 1;
      return true;
    }

    method Top() returns (element: Option<T>)
      requires Valid()
      ensures element == if Contents() == [] then None else Some(Contents()[|Contents()| - 1])
    {
      if size <= 0 {
        return None;
      }
      return Some(list[top]);
    }
  }
}
