/** A non-empty set of numbers has a greatest member. */
module Greatest {

  lemma Inhabited(s: set<int>)
    ensures s == {} || exists x :: x in s
  {
    if forall x :: x !in s {
      assert s == {};
    }
  }

  lemma {:induction false} Exists(s: set<int>)
    requires s != {}
    ensures exists m :: m in s && forall x :: x in s ==> x <= m
  {
    Inhabited(s);
    var x :| x in s;
    var rest := s - {x};
    assert forall y :: y in s ==> y == x || y in rest;
    if rest != {} {
      Exists(rest);
      var m :| m in rest && forall y :: y in rest ==> y <= m;
      var g := if x > m then x else m;
      assert g in s && forall y :: y in s ==> y <= g;
    }
  }
}
