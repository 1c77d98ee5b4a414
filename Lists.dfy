/** The JavaScript array operations the handlers apply to a user's list of
    property ids: `indexOf`, `splice(index, 1)` and spreading into a new array. */
module Lists {

  /** No id occurs twice. */
  predicate NoDup<T(==)>(s: seq<T>)
  {
    forall i, j :: 0 <= i < j < |s| ==> s[i] != s[j]
  }

  /** `s.indexOf(x)`: the position of the first `x` (strict equality), or -1. */
  function IndexOf<T(==)>(s: seq<T>, x: T): (r: int)
    ensures -1 <= r < |s|
    ensures r == -1 <==> x !in s
    ensures 0 <= r ==> s[r] == x && x !in s[..r]
  {
    if |s| == 0 then -1
    else if s[0] == x then 0
    else
      var i := IndexOf(s[1..], x);
      if i == -1 then -1
      else
        assert s[..i + 1] == [s[0]] + s[1..][..i];
        i + 1
  }

  /** `s.splice(i, 1)`, seen through the array it leaves behind: element `i`
      is taken out and the elements after it move down by one. */
  function Splice<T>(s: seq<T>, i: nat): (r: seq<T>)
    requires i < |s|
    ensures |r| == |s| - 1
    ensures forall k :: 0 <= k < i ==> r[k] == s[k]
    ensures forall k :: i <= k < |r| ==> r[k] == s[k + 1]
  {
    s[..i] + s[i + 1..]
  }

  /** Reference definition: `s` with its first occurrence of `x` removed, the
      rest in order; `s` itself when `x` does not occur. */
  function DropFirst<T(==)>(s: seq<T>, x: T): (r: seq<T>)
    ensures x !in s ==> r == s
    ensures x in s ==> |r| == |s| - 1
    ensures multiset(r) == multiset(s) - multiset{x}
  {
    if |s| == 0 then []
    else
      assert s == [s[0]] + s[1..];
      if s[0] == x then s[1..] else [s[0]] + DropFirst(s[1..], x)
  }

  /** `const index = s.indexOf(x); if (index > -1) s.splice(index, 1);`:
      a list without `x` is left as it is, a list with `x` loses one
      element (`IndexOfThenSplice` proves which one). */
  function SpliceIndexOf<T(==)>(s: seq<T>, x: T): (r: seq<T>)
    ensures x !in s ==> r == s
    ensures x in s ==> |r| == |s| - 1
  {
    var i := IndexOf(s, x);
    if i > -1 then Splice(s, i) else s
  }

  lemma SpliceCons<T>(s: seq<T>, i: nat)
    requires i + 1 < |s|
    ensures Splice(s, i + 1) == [s[0]] + Splice(s[1..], i)
  {
    assert s[..i + 1] == [s[0]] + s[1..][..i];
    assert s[i + 2..] == s[1..][i + 1..];
  }

  /** `indexOf` followed by `splice(index, 1)` removes exactly the first
      occurrence, as the reference definition says. */
  lemma {:induction false} IndexOfThenSplice<T>(s: seq<T>, x: T)
    ensures SpliceIndexOf(s, x) == DropFirst(s, x)
  {
    if |s| > 0 {
      if s[0] == x {
        assert Splice(s, 0) == s[1..];
      } else {
        var i := IndexOf(s[1..], x);
        assert IndexOf(s, x) == if i == -1 then -1 else i + 1;
        assert DropFirst(s, x) == [s[0]] + DropFirst(s[1..], x);
        IndexOfThenSplice(s[1..], x);
        if i > -1 {
          SpliceCons(s, i);
        } else {
          assert s == [s[0]] + s[1..];
        }
      }
    }
  }

  /** In a duplicate-free list, splicing out position `i` leaves no
      duplicate and every element but the one removed. */
  lemma SpliceNoDup<T>(s: seq<T>, i: nat)
    requires i < |s| && NoDup(s)
    ensures NoDup(Splice(s, i))
    ensures forall y :: y in Splice(s, i) <==> y in s && y != s[i]
  {
    var r := Splice(s, i);
    forall a, b | 0 <= a < b < |r| ensures r[a] != r[b] {
      var a' := if a < i then a else a + 1;
      var b' := if b < i then b else b + 1;
      assert r[a] == s[a'] && r[b] == s[b'];
    }
    forall y ensures y in r <==> y in s && y != s[i] {
      if y in r {
        var k :| 0 <= k < |r| && r[k] == y;
        assert s[if k < i then k else k + 1] == y;
      }
      if y in s && y != s[i] {
        var k :| 0 <= k < |s| && s[k] == y;
        assert r[if k < i then k else k - 1] == y;
      }
    }
  }

  /** In a duplicate-free list, dropping `x` leaves no `x`, no duplicate,
      and every other element. */
  lemma DropFirstNoDup<T>(s: seq<T>, x: T)
    requires NoDup(s)
    ensures NoDup(DropFirst(s, x))
    ensures forall y :: y in DropFirst(s, x) <==> y in s && y != x
  {
    IndexOfThenSplice(s, x);
    if x in s {
      SpliceNoDup(s, IndexOf(s, x));
    }
  }

  /** Appending an id that is not yet there keeps a list duplicate-free. */
  lemma AppendNoDup<T>(s: seq<T>, x: T)
    requires NoDup(s) && x !in s
    ensures NoDup(s + [x])
  {
    forall i, j | 0 <= i < j < |s| + 1 ensures (s + [x])[i] != (s + [x])[j] {
      if j == |s| {
        assert (s + [x])[i] == s[i];
      }
    }
  }
}
