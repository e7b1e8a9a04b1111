// Members of finite sets.
module Sets {

  lemma SomeMember<T>(s: set<T>) returns (x: T)
    requires s != {}
    ensures x in s
  {
    x :| x in s;
  }

  predicate IsLowest(s: set<int>, low: int) {
    low in s && forall x | x in s :: low <= x
  }

  lemma {:induction false} LowestExists(s: set<int>)
    requires s != {}
    ensures exists low :: IsLowest(s, low)
    decreases |s|
  {
    var x := SomeMember(s);
    var rest := s - {x};
    if rest == {} {
      assert s == {x};
      assert IsLowest(s, x);
    } else {
      LowestExists(rest);
      var low :| IsLowest(rest, low);
      assert forall y | y in s :: y == x || y in rest;
      assert IsLowest(s, if x < low then x else low);
    }
  }

  method Lowest(s: set<int>) returns (low: int)
    requires s != {}
    ensures IsLowest(s, low)
  {
    LowestExists(s);
    low :| IsLowest(s, low);
  }
}
