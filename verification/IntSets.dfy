/** Least elements of finite sets of integers. */
module IntSets {
  ghost function Least(keys: set<int>): (k: int)
    requires exists j :: j in keys
    ensures k in keys && forall j | j in keys :: k <= j
  {
    var x :| x in keys;
    var rest := keys - {x};
    assert forall j | j in keys :: j == x || j in rest;
    if exists j :: j in rest then
      var y := Least(rest);
      assert keys == rest + {x};
      if x < y then x else y
    else x
  }
}
