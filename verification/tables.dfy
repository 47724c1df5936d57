/** Helpers over tables keyed by integer ids. */
module Tables {

  lemma EmptyWithoutMembers(ids: set<int>)
    ensures (forall x :: x !in ids) ==> ids == {}
  {
    if forall x :: x !in ids {
      assert ids == {};
    }
  }

  lemma HasMember(ids: set<int>)
    requires ids != {}
    ensures exists x :: x in ids
  {
    EmptyWithoutMembers(ids);
  }

  /** Every non-empty finite set of ids has a least element. */
  lemma {:induction false} LeastExists(ids: set<int>)
    requires ids != {}
    ensures exists k :: k in ids && forall j :: j in ids ==> k <= j
    decreases ids
  {
    HasMember(ids);
    var x :| x in ids;
    var rest := ids - {x};
    assert ids == rest + {x};
    if rest == {} {
      assert ids == {x};
    } else {
      LeastExists(rest);
      var k :| k in rest && forall j :: j in rest ==> k <= j;
      var m := if x < k then x else k;
      assert m in ids && forall j :: j in ids ==> m <= j;
    }
  }

  /** The lowest id of a non-empty set. A SELECT without ORDER BY that
      returns several rows is modelled as returning them in id order, so
      "the first row" is the row with this id. */
  function LeastKey(ids: set<int>): (k: int)
    requires ids != {}
    ensures k in ids
    ensures forall j :: j in ids ==> k <= j
  {
    LeastExists(ids);
    var k :| k in ids && forall j :: j in ids ==> k <= j;
    k
  }
}
