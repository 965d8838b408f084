/** Lists without duplicates, as the linked lists of the program hold their nodes. */
module Lists {

  ghost predicate NoDup<T>(s: seq<T>) {
    forall i, j :: 0 <= i < j < |s| ==> s[i] != s[j]
  }

  /** The list after `x` was unlinked. */
  function Without<T(==)>(s: seq<T>, x: T): seq<T> {
    if s == [] then [] else (if s[0] == x then [] else [s[0]]) + Without(s[1..], x)
  }

  lemma {:induction false} WithoutFacts<T>(s: seq<T>, x: T)
    ensures forall p :: p in Without(s, x) <==> p in s && p != x
    ensures |Without(s, x)| <= |s|
    ensures x in s ==> |Without(s, x)| < |s|
    ensures x !in s ==> Without(s, x) == s
  {
    if s != [] {
      WithoutFacts(s[1..], x);
      var w := Without(s[1..], x);
      assert forall p :: p in s <==> p == s[0] || p in s[1..];
      assert Without(s, x) == if s[0] == x then w else [s[0]] + w;
    }
  }

  lemma {:induction false} WithoutNoDup<T>(s: seq<T>, x: T)
    requires NoDup(s)
    ensures NoDup(Without(s, x))
  {
    if s != [] {
      WithoutNoDup(s[1..], x);
      WithoutFacts(s[1..], x);
      assert s[0] !in Without(s[1..], x);
    }
  }

  lemma {:induction false} WithoutAt<T>(s: seq<T>, x: T, k: nat)
    requires NoDup(s) && k < |s| && s[k] == x
    ensures Without(s, x) == s[..k] + s[k + 1..]
  {
    if k == 0 {
      WithoutFacts(s[1..], x);
      assert x !in s[1..];
    } else {
      WithoutAt(s[1..], x, k - 1);
      assert s[..k] == [s[0]] + s[1..][..k - 1];
      assert s[1..][k..] == s[k + 1..];
    }
  }

  lemma AppendNoDup<T>(s: seq<T>, x: T)
    requires NoDup(s) && x !in s
    ensures NoDup(s + [x])
    ensures forall p :: p in s + [x] <==> p in s || p == x
  {
  }

  lemma {:induction false} OnceIfNoDup<T>(s: seq<T>, x: T)
    requires NoDup(s)
    ensures multiset(s)[x] == if x in s then 1 else 0
  {
    if s != [] {
      OnceIfNoDup(s[1..], x);
      assert s == [s[0]] + s[1..];
    }
  }
}
