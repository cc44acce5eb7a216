// arraysEqual from src/lib/util.ts. Elements are compared with Dafny's
// ==, which stands for JavaScript's strict equality: identity for
// objects, value equality for primitives.

module ArrayUtil {

  /** arraysEqual: the same array (both null included), or two non-null
      arrays of the same length holding equal elements at every index. */
  method ArraysEqual<T(==)>(a: array?<T>, b: array?<T>) returns (equal: bool)
    ensures equal <==> a == b || (a != null && b != null && a[..] == b[..])
  {
    if a == b {
      return true;
    }
    if a == null || b == null {
      return false;
    }
    if a.Length != b.Length {
      return false;
    }
    for i := 0 to a.Length
      invariant a[..i] == b[..i]
    {
      if a[i] != b[i] {
        assert a[..][i] != b[..][i];
        return false;
      }
      assert a[..i + 1] == a[..i] + [a[i]] && b[..i + 1] == b[..i] + [b[i]];
    }
    assert a[..] == a[..a.Length] && b[..] == b[..b.Length];
    return true;
  }
}
