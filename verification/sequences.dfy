/** Generic facts about ordered lists: the Python list operations the record
    store relies on (comprehension filters, the first-match scan and
    `list.remove`), each with the property it guarantees. */
module Sequences {

  datatype Option<T> = None | Some(value: T)

  datatype Result<T, E> = Ok(value: T) | Err(error: E)

  /** `r` occurs in `s` in the same order, possibly with gaps. */
  predicate IsSubseq<T(==)>(r: seq<T>, s: seq<T>)
  {
    if r == [] then true
    else if s == [] then false
    else if r[0] == s[0] then IsSubseq(r[1..], s[1..])
    else IsSubseq(r, s[1..])
  }

  /** A list comprehension `[x for x in s if p(x)]`. */
  function Filter<T>(s: seq<T>, p: T -> bool): seq<T>
  {
    if s == [] then []
    else if p(s[0]) then [s[0]] + Filter(s[1..], p)
    else Filter(s[1..], p)
  }

  /** What a comprehension filter guarantees: exactly the elements of `s`
      that satisfy `p`, each as often as in `s`, in the order of `s`. */
  lemma {:induction false} FilterSpec<T>(s: seq<T>, p: T -> bool)
    ensures forall x :: x in Filter(s, p) ==> x in s && p(x)
    ensures forall x :: x in s && p(x) ==> multiset(Filter(s, p))[x] == multiset(s)[x]
    ensures IsSubseq(Filter(s, p), s)
  {
    if s != [] {
      assert s == [s[0]] + s[1..];
      var rest := Filter(s[1..], p);
      FilterSpec(s[1..], p);
      if p(s[0]) {
        assert ([s[0]] + rest)[1..] == rest;
      }
    }
  }

  /** Filtering a list extended at the end. */
  lemma {:induction false} FilterAppend<T>(s: seq<T>, x: T, p: T -> bool)
    ensures Filter(s + [x], p) == Filter(s, p) + (if p(x) then [x] else [])
  {
    if s == [] {
      assert [x][1..] == [];
    } else {
      var t := s + [x];
      assert t[0] == s[0] && t[1..] == s[1..] + [x];
      FilterAppend(s[1..], x, p);
    }
  }

  /** Filtering a list extended at the front. */
  lemma FilterCons<T>(x: T, s: seq<T>, p: T -> bool)
    ensures Filter([x] + s, p) == (if p(x) then [x] else []) + Filter(s, p)
  {
  }

  /** Nothing survives a filter that no element passes. */
  lemma {:induction false} FilterNone<T>(s: seq<T>, p: T -> bool)
    requires forall i :: 0 <= i < |s| ==> !p(s[i])
    ensures Filter(s, p) == []
  {
    if s != [] {
      FilterNone(s[1..], p);
    }
  }

  /** Every list is a subsequence of itself. */
  lemma {:induction false} SubseqRefl<T>(s: seq<T>)
    ensures IsSubseq(s, s)
  {
    if s != [] {
      SubseqRefl(s[1..]);
    }
  }

  /** A subsequence stays one when an element is put in front of the list. */
  lemma {:induction false} SubseqCons<T>(r: seq<T>, s: seq<T>, x: T)
    requires IsSubseq(r, s)
    ensures IsSubseq(r, [x] + s)
    decreases |s|, 1
  {
    assert ([x] + s)[1..] == s;
    if r != [] && r[0] == x {
      SubseqTail(r, s);
    }
  }

  /** Dropping the head of a subsequence keeps it a subsequence. */
  lemma {:induction false} SubseqTail<T>(r: seq<T>, s: seq<T>)
    requires r != [] && IsSubseq(r, s)
    ensures IsSubseq(r[1..], s)
    decreases |s|, 0
  {
    if r[0] == s[0] {
      SubseqCons(r[1..], s[1..], s[0]);
      assert [s[0]] + s[1..] == s;
    } else {
      SubseqTail(r, s[1..]);
      SubseqCons(r[1..], s[1..], s[0]);
      assert [s[0]] + s[1..] == s;
    }
  }

  /** The index of the first element whose key equals `q`: the scan
      `for x in s: if key(x) == q: ...` of the edit and delete operations. */
  function FirstIndex<T, K(==)>(s: seq<T>, key: T -> K, q: K): (r: Option<nat>)
    ensures r.Some? ==> r.value < |s| && key(s[r.value]) == q
    ensures r.Some? ==> forall j :: 0 <= j < r.value ==> key(s[j]) != q
    ensures r.None? <==> forall j :: 0 <= j < |s| ==> key(s[j]) != q
  {
    if s == [] then None
    else if key(s[0]) == q then Some(0)
    else match FirstIndex(s[1..], key, q)
      case None => None
      case Some(k) => Some(k + 1)
  }

  /** The list without its element at index `i`. */
  function RemoveAt<T>(s: seq<T>, i: nat): seq<T>
    requires i < |s|
  {
    s[..i] + s[i + 1..]
  }

  /** Removing one element drops the length by one, keeps every other
      element and keeps the order of the rest. */
  lemma RemoveAtKeepsRest<T>(s: seq<T>, i: nat)
    requires i < |s|
    ensures |RemoveAt(s, i)| == |s| - 1
    ensures multiset(RemoveAt(s, i)) + multiset{s[i]} == multiset(s)
    ensures IsSubseq(RemoveAt(s, i), s)
  {
    assert s == s[..i] + [s[i]] + s[i + 1..];
    RemoveAtIsSubseq(s, i);
  }

  lemma {:induction false} RemoveAtIsSubseq<T>(s: seq<T>, i: nat)
    requires i < |s|
    ensures IsSubseq(RemoveAt(s, i), s)
  {
    if i == 0 {
      assert RemoveAt(s, 0) == s[1..];
      SubseqRefl(s[1..]);
      SubseqCons(s[1..], s[1..], s[0]);
      assert [s[0]] + s[1..] == s;
    } else {
      RemoveAtIsSubseq(s[1..], i - 1);
      var r := RemoveAt(s, i);
      assert r == [s[0]] + RemoveAt(s[1..], i - 1);
      assert r[0] == s[0] && r[1..] == RemoveAt(s[1..], i - 1);
    }
  }

  /** Python's `list.remove(x)`: deletes the first element equal to `x`,
      and leaves the list as it was when there is none (where Python raises
      `ValueError`). */
  function RemoveFirstEqual<T(==)>(s: seq<T>, x: T): (r: seq<T>)
  {
    if s == [] then []
    else if s[0] == x then s[1..]
    else [s[0]] + RemoveFirstEqual(s[1..], x)
  }

  /** `list.remove(x)` of an element that is not there changes nothing. */
  lemma {:induction false} RemoveAbsent<T>(s: seq<T>, x: T)
    requires x !in s
    ensures RemoveFirstEqual(s, x) == s
  {
    if s != [] {
      assert s == [s[0]] + s[1..];
      RemoveAbsent(s[1..], x);
    }
  }

  /** What `list.remove(x)` does to an element that is there: it drops the
      first occurrence of `x` and keeps the rest in order. */
  lemma {:induction false} RemoveFirstEqualSpec<T>(s: seq<T>, x: T)
    requires x in s
    ensures exists i :: 0 <= i < |s| && s[i] == x && (forall k :: 0 <= k < i ==> s[k] != x)
                        && RemoveFirstEqual(s, x) == RemoveAt(s, i)
  {
    if s[0] == x {
      assert RemoveAt(s, 0) == s[1..];
    } else {
      assert s == [s[0]] + s[1..];
      RemoveFirstEqualSpec(s[1..], x);
      var t := s[1..];
      var j :| 0 <= j < |t| && t[j] == x && (forall k :: 0 <= k < j ==> t[k] != x)
               && RemoveFirstEqual(t, x) == RemoveAt(t, j);
      RemoveLaterOccurrence(s, x, j);
    }
  }

  /** The step of RemoveFirstEqualSpec: when the head is not `x`, removing
      from the tail at `j` is removing from the list at `j + 1`. */
  lemma RemoveLaterOccurrence<T>(s: seq<T>, x: T, j: nat)
    requires s != [] && s[0] != x && j < |s| - 1
    requires RemoveFirstEqual(s[1..], x) == RemoveAt(s[1..], j)
    ensures RemoveFirstEqual(s, x) == RemoveAt(s, j + 1)
  {
    var t := s[1..];
    assert s[..j + 1] == [s[0]] + t[..j];
    assert s[j + 2..] == t[j + 1..];
  }

  /** `list.remove(x)` of an element that is there shortens the list by one
      and takes exactly one copy of `x` away. */
  lemma RemoveFirstEqualCount<T>(s: seq<T>, x: T)
    requires x in s
    ensures |RemoveFirstEqual(s, x)| == |s| - 1
    ensures multiset(RemoveFirstEqual(s, x)) == multiset(s) - multiset{x}
  {
    RemoveFirstEqualSpec(s, x);
    var i :| 0 <= i < |s| && s[i] == x && (forall k :: 0 <= k < i ==> s[k] != x)
             && RemoveFirstEqual(s, x) == RemoveAt(s, i);
    RemoveAtKeepsRest(s, i);
  }

  /** The source looks a record up by key and then calls `list.remove` on it;
      since no earlier record has the same key, no earlier record equals it,
      so exactly the found record is removed. */
  lemma {:induction false} RemoveFoundRecord<T, K>(s: seq<T>, key: T -> K, q: K, i: nat)
    requires FirstIndex(s, key, q) == Some(i)
    ensures RemoveFirstEqual(s, s[i]) == RemoveAt(s, i)
  {
    if i == 0 {
      assert RemoveAt(s, 0) == s[1..];
    } else {
      assert key(s[0]) != q;
      assert FirstIndex(s[1..], key, q) == Some(i - 1);
      RemoveFoundRecord(s[1..], key, q, i - 1);
      assert RemoveAt(s, i) == [s[0]] + RemoveAt(s[1..], i - 1);
    }
  }
}
