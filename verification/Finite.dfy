/** The least element of a finite set, the first key of an ordered map. */
module Finite {
  lemma Pick<T>(s: set<T>) returns (x: T)
    requires s != {}
    ensures x in s
  {
    x :| x in s;
  }

  lemma {:induction false} LeastOf(keys: set<int>) returns (k: int)
    requires keys != {}
    ensures k in keys && forall j :: j in keys ==> k <= j
  {
    k := Pick(keys);
    var rest := keys - {k};
    assert keys == rest + {k};
    if rest != {} {
      var m := LeastOf(rest);
      k := if k <= m then k else m;
    }
  }

  lemma LeastExists(keys: set<int>)
    requires keys != {}
    ensures exists k :: k in keys && forall j :: j in keys ==> k <= j
  {
    var k := LeastOf(keys);
  }
}
