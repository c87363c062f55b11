/** How often an element occurs in a sequence. */
module Counting {
  function Count<T(==)>(s: seq<T>, x: T): nat {
    if s == [] then 0 else Count(s[..|s| - 1], x) + if s[|s| - 1] == x then 1 else 0
  }

  lemma {:induction false} CountZero<T>(s: seq<T>, x: T)
    ensures Count(s, x) == 0 <==> x !in s
  {
    if s == [] {
    } else {
      CountZero(s[..|s| - 1], x);
      assert s == s[..|s| - 1] + [s[|s| - 1]];
    }
  }

  lemma CountAppend<T>(s: seq<T>, t: T, x: T)
    ensures Count(s + [t], x) == Count(s, x) + if t == x then 1 else 0
  {
    assert (s + [t])[..|s|] == s;
  }

  lemma {:induction false} CountUpdate<T>(s: seq<T>, j: nat, t: T, x: T)
    requires j < |s|
    ensures Count(s[j := t], x) == Count(s, x) - (if s[j] == x then 1 else 0) + (if t == x then 1 else 0)
  {
    var last := |s| - 1;
    if j == last {
      assert s[j := t][..last] == s[..last];
    } else {
      assert s[j := t][..last] == s[..last][j := t];
      CountUpdate(s[..last], j, t, x);
    }
  }
}
