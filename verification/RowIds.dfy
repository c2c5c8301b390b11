/** Fresh row ids. */
module RowIds {

  lemma {:induction false} MaxExists(ids: set<nat>)
    requires ids != {}
    ensures exists m :: m in ids && forall i :: i in ids ==> i <= m
    decreases |ids|
  {
    var x :| x in ids;
    if ids != {x} {
      MaxExists(ids - {x});
      var m :| m in ids - {x} && forall i :: i in ids - {x} ==> i <= m;
      var best := if m < x then x else m;
      forall i | i in ids ensures i <= best {
        if i != x { assert i in ids - {x}; }
      }
      assert best in ids;
    }
  }

  /** SQLite's choice for an `INTEGER PRIMARY KEY`: one more than the largest row id. */
  function NextId(ids: set<nat>): (id: nat)
    ensures id !in ids && forall i :: i in ids ==> i < id
  {
    if ids == {} then 1
    else
      MaxExists(ids);
      var m :| m in ids && forall i :: i in ids ==> i <= m;
      m + 1
  }
}
