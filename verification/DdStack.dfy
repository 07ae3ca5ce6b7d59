/** The bounded stack of diagrams used by both evaluators. */
module DdStacks {
  import opened BoolFunctions
  import opened Outcomes

  class DdStack {
    var top: nat
    const slots: array<Bdd>

    ghost predicate Valid()
      reads this
    {
      top <= slots.Length
    }

    ghost function Contents(): seq<Bdd>
      requires Valid()
      reads this, slots
    {
      slots[..top]
    }

    constructor (capacity: nat)
      ensures Valid() && Contents() == [] && slots.Length == capacity && fresh(slots)
    {
      top := 0;
      slots := new Bdd[capacity];
    }

    method Push(node: Bdd) returns (ok: bool)
      requires Valid()
      modifies this, slots
      ensures Valid() && ok == (old(top) < slots.Length)
      ensures Contents() == if ok then old(Contents()) + [node] else old(Contents())
    {
      if top < slots.Length {
        slots[top] := node;
        top := top + 1;
        ok := true;
      } else {
        ok := false;
      }
    }

    method Pop() returns (node: Option<Bdd>)
      requires Valid()
      modifies this
      ensures Valid()
      ensures old(Contents()) == [] ==> node == None && Contents() == []
      ensures old(Contents()) != [] ==> node.Some? && Contents() + [node.value] == old(Contents())
    {
      if top != 0 {
        top := top - 1;
        node := Some(slots[top]);
      } else {
        node := None;
      }
    }
  }
}
