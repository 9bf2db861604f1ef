/** Members of sets: any one, the lowest, the highest. */
module Sets {

  ghost function Any<T>(s: set<T>): (x: T)
    requires s != {}
    ensures x in s
  {
    var x :| x in s;
    x
  }

  ghost function Lowest(keys: set<int>): (low: int)
    requires keys != {}
    ensures low in keys && forall k | k in keys :: low <= k
  {
    var k := Any(keys);
    if keys == {k} then k
    else
      var rest := Lowest(keys - {k});
      assert keys == (keys - {k}) + {k};
      if k < rest then k else rest
  }

  ghost function Highest(keys: set<int>): (high: int)
    requires keys != {}
    ensures high in keys && forall k | k in keys :: k <= high
  {
    var k := Any(keys);
    if keys == {k} then k
    else
      var rest := Highest(keys - {k});
      assert keys == (keys - {k}) + {k};
      if k > rest then k else rest
  }

  method Choose<T(==)>(s: set<T>) returns (x: T)
    requires s != {}
    ensures x in s
  {
    x :| x in s;
  }
}
