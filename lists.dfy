/** The Python list operations the server relies on, as functions on sequences. */
module Lists {
  import opened Wrappers

  /** No element occurs twice. */
  predicate NoDup<T(==)>(s: seq<T>) {
    forall i, j :: 0 <= i < j < |s| ==> s[i] != s[j]
  }

  /** Index of the first occurrence of `x` in `s`. */
  function FirstIndex<T(==)>(s: seq<T>, x: T): (k: nat)
    requires x in s
    ensures k < |s| && s[k] == x
    ensures forall j :: 0 <= j < k ==> s[j] != x
  {
    if s[0] == x then 0 else 1 + FirstIndex(s[1..], x)
  }

  /**
   * Python's `list.remove(x)`: removes the first element equal to `x`,
   * and raises `ValueError` (here `None`) when there is none.
   */
  function RemoveFirst<T(==)>(s: seq<T>, x: T): (r: Option<seq<T>>)
    ensures r.Some? <==> x in s
    ensures r.Some? ==> |r.value| == |s| - 1
    ensures r.Some? ==> multiset(r.value) == multiset(s) - multiset{x}
  {
    if x !in s then None
    else
      var k := FirstIndex(s, x);
      assert s == s[..k] + [x] + s[k + 1..];
      Some(s[..k] + s[k + 1..])
  }

  /** Dropping the element at `k` from a list without duplicates keeps every other element and drops that one. */
  lemma DropAtNoDup<T>(s: seq<T>, k: nat)
    requires NoDup(s) && k < |s|
    ensures NoDup(s[..k] + s[k + 1..])
    ensures forall y :: y in s[..k] + s[k + 1..] <==> y in s && y != s[k]
  {
    var r := s[..k] + s[k + 1..];
    assert forall i :: 0 <= i < |r| ==> r[i] == (if i < k then s[i] else s[i + 1]);
    forall i, j | 0 <= i < j < |r| ensures r[i] != r[j] {
      var a, b := if i < k then i else i + 1, if j < k then j else j + 1;
      assert a < b && r[i] == s[a] && r[j] == s[b];
    }
    forall y ensures y in r <==> y in s && y != s[k] {
      if y in r {
        var i :| 0 <= i < |r| && r[i] == y;
        assert y == (if i < k then s[i] else s[i + 1]);
      }
      if y in s && y != s[k] {
        var i :| 0 <= i < |s| && s[i] == y;
        assert y == (if i < k then r[i] else r[i - 1]);
      }
    }
  }

  /** In a list without duplicates, removing an element keeps every other element and drops that one. */
  lemma {:induction false} RemoveFirstNoDup<T>(s: seq<T>, x: T)
    requires NoDup(s) && x in s
    ensures RemoveFirst(s, x).Some?
    ensures NoDup(RemoveFirst(s, x).value)
    ensures x !in RemoveFirst(s, x).value
    ensures forall y :: y in RemoveFirst(s, x).value <==> y in s && y != x
  {
    var k := FirstIndex(s, x);
    assert RemoveFirst(s, x) == Some(s[..k] + s[k + 1..]);
    DropAtNoDup(s, k);
  }

  /** `list.remove` of the first element drops exactly that element. */
  lemma RemoveFirstHead<T>(s: seq<T>, x: T)
    requires |s| > 0 && s[0] == x
    ensures RemoveFirst(s, x) == Some(s[1..])
  {
    assert FirstIndex(s, x) == 0;
    assert s[..0] + s[1..] == s[1..];
  }

  /** Removing an element that occurs once leaves nothing to remove a second time. */
  lemma {:induction false} RemoveTwiceFails<T>(s: seq<T>, x: T)
    requires multiset(s)[x] == 1
    ensures RemoveFirst(s, x).Some?
    ensures RemoveFirst(RemoveFirst(s, x).value, x).None?
  {
    assert x in multiset(s);
    var r := RemoveFirst(s, x).value;
    assert multiset(r)[x] == 0;
  }

  /** `if x not in s: s.append(x)` */
  function AppendIfAbsent<T(==)>(s: seq<T>, x: T): (r: seq<T>)
    ensures x in r
    ensures multiset(r) == multiset(s) + (if x in s then multiset{} else multiset{x})
    ensures NoDup(s) ==> NoDup(r)
    ensures x in s ==> r == s
    ensures x !in s ==> r == s + [x]
  {
    if x in s then s else s + [x]
  }

  /**
   * `if x in s: s.remove(x)`: one occurrence of `x` goes if there is one,
   * and a list without duplicates loses exactly `x` and stays without them.
   */
  function RemoveIfPresent<T(==,!new)>(s: seq<T>, x: T): (r: seq<T>)
    ensures x !in s ==> r == s
    ensures x in s ==> Some(r) == RemoveFirst(s, x)
    ensures multiset(r) == multiset(s) - multiset{x}
    ensures NoDup(s) ==> NoDup(r) && x !in r && forall y :: y in r <==> y in s && y != x
  {
    if x !in s then s
    else if NoDup(s) then RemoveFirstNoDup(s, x); RemoveFirst(s, x).value
    else RemoveFirst(s, x).value
  }
}
