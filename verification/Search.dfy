/** Search for a contiguous run of items in a container. */
module Search {

  ghost predicate OccursAt<T>(container: seq<T>, items: seq<T>, i: nat) {
    i + |items| <= |container| && container[i..i + |items|] == items
  }

  /** One item out of place is enough to rule an occurrence out. */
  lemma Mismatch<T>(container: seq<T>, items: seq<T>, i: nat, k: nat)
    requires k < |items| && i + k < |container| && container[i + k] != items[k]
    ensures !OccursAt(container, items, i)
  {
    if i + |items| <= |container| {
      assert container[i..i + |items|][k] != items[k];
    }
  }

  /**
    The least index at which the items occur, or -1 when they occur nowhere. The search gives up as soon as the
    container ends within a partial match: no later start leaves room for the items.
    */
  method ContainsAt<T(==)>(container: seq<T>, items: seq<T>) returns (r: int)
    ensures r >= -1
    ensures r >= 0 ==> OccursAt(container, items, r) && forall j: nat :: j < r ==> !OccursAt(container, items, j)
    ensures r == -1 <==> forall j: nat :: !OccursAt(container, items, j)
  {
    var c, sc, i := 0, 0, 0;
    while true
      invariant c == i <= |container| && sc == 0
      invariant forall j: nat :: j < i ==> !OccursAt(container, items, j)
      decreases |container| - c
    {
      if sc == |items| {
        assert OccursAt(container, items, i);
        return i;
      }
      if c == |container| {
        return -1;
      }
      ghost var mismatch := 0;
      c := c + 1;
      if container[c - 1] == items[sc] {
        var cc := c;
        sc := sc + 1;
        while true
          invariant 1 <= sc <= |items| && cc == i + sc <= |container|
          invariant forall k :: 0 <= k < sc ==> container[i + k] == items[k]
          decreases |container| - cc
        {
          if sc == |items| {
            assert OccursAt(container, items, i);
            return i;
          }
          if cc == |container| {
            return -1;
          }
          var a, b := container[cc], items[sc];
          cc, sc := cc + 1, sc + 1;
          if a != b {
            mismatch := sc - 1;
            sc := 0;
            break;
          }
        }
      }
      Mismatch(container, items, i, mismatch);
      i := i + 1;
    }
  }
}
