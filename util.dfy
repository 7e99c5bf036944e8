/** `StringInArray` of util/util.go. */
module Util {
  import opened Base

  /** `StringInArray`: scans the list and answers true at the first element
      equal to `toFind`; false on reaching the end. */
  method StringInArray(toFind: Bytes, list: seq<Bytes>) returns (found: bool)
    ensures found <==> toFind in list
    ensures list == [] ==> !found
    ensures list != [] && list[0] == toFind ==> found
  {
    for t := 0 to |list|
      invariant toFind !in list[..t]
    {
      if list[t] == toFind {
        return true;
      }
      assert list[..t + 1] == list[..t] + [list[t]];
    }
    assert list[..|list|] == list;
    return false;
  }
}
