/** Lists of free objects. */
module SlubList {

  type Obj = nat

  /** A list of free objects, linked through the objects. */
  datatype List = Nil | Cons(head: Obj, tail: List)

  function Elems(l: List): set<Obj> {
    if l == Nil then {} else {l.head} + Elems(l.tail)
  }

  function Len(l: List): nat {
    if l == Nil then 0 else 1 + Len(l.tail)
  }

  predicate NoDup(l: List) {
    l == Nil || (l.head !in Elems(l.tail) && NoDup(l.tail))
  }
}
