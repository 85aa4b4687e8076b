/** `trier_etudiants`: Python's `list.sort(key=...)`, a stable sort, with
    the two keys the store offers: the lower-cased name and the moment the
    student was added. Keys are compared as Python compares strings and
    datetimes, lexicographically. */
module Sorting {
  import opened Sequences
  import opened Text
  import opened Calendar
  import opened Records

  /** Python's `<=` on sequences: lexicographic, a proper prefix first. */
  predicate LexLe(a: seq<int>, b: seq<int>)
    ensures |a| <= |b| && a == b[..|a|] ==> LexLe(a, b)
  {
    if a == [] then true
    else if b == [] then false
    else if a[0] != b[0] then a[0] < b[0]
    else LexLe(a[1..], b[1..])
  }

  lemma {:induction false} LexLeRefl(a: seq<int>)
    ensures LexLe(a, a)
  {
    if a != [] {
      LexLeRefl(a[1..]);
    }
  }

  lemma {:induction false} LexLeTotal(a: seq<int>, b: seq<int>)
    ensures LexLe(a, b) || LexLe(b, a)
  {
    if a != [] && b != [] && a[0] == b[0] {
      LexLeTotal(a[1..], b[1..]);
    }
  }

  lemma {:induction false} LexLeTrans(a: seq<int>, b: seq<int>, c: seq<int>)
    requires LexLe(a, b) && LexLe(b, c)
    ensures LexLe(a, c)
  {
    if a != [] && b != [] && c != [] && a[0] == b[0] && b[0] == c[0] {
      LexLeTrans(a[1..], b[1..], c[1..]);
    }
  }

  lemma {:induction false} LexLeAntisym(a: seq<int>, b: seq<int>)
    requires LexLe(a, b) && LexLe(b, a)
    ensures a == b
  {
    if a != [] && b != [] {
      LexLeAntisym(a[1..], b[1..]);
      assert a == [a[0]] + a[1..] && b == [b[0]] + b[1..];
    }
  }

  /** Keys never decrease along the list. */
  ghost predicate SortedBy<T>(s: seq<T>, key: T -> seq<int>)
  {
    forall i, j :: 0 <= i < j < |s| ==> LexLe(key(s[i]), key(s[j]))
  }

  /** The test "has key `k`", as one value, so that every run of the same
      key is selected by the same predicate. */
  ghost function HasKey<T>(key: T -> seq<int>, k: seq<int>): T -> bool
  {
    x => key(x) == k
  }

  /** The elements with key `k`, in list order. */
  ghost function Select<T>(s: seq<T>, key: T -> seq<int>, k: seq<int>): seq<T>
  {
    Filter(s, HasKey(key, k))
  }

  /** `r` holds the same elements as `s`, and for every key the elements
      with that key appear in the same relative order: what a stable sort
      keeps. */
  ghost predicate SameRunsBy<T>(r: seq<T>, s: seq<T>, key: T -> seq<int>)
  {
    forall k :: Select(r, key, k) == Select(s, key, k)
  }

  /** Keeping every run keeps every element: such a list is a permutation. */
  lemma SameRunsIsPermutation<T>(r: seq<T>, s: seq<T>, key: T -> seq<int>)
    requires SameRunsBy(r, s, key)
    ensures multiset(r) == multiset(s)
  {
    forall y | y in r
      ensures multiset(r)[y] == multiset(s)[y]
    {
      var k := key(y);
      FilterSpec(r, HasKey(key, k));
      FilterSpec(s, HasKey(key, k));
      assert multiset(Select(r, key, k))[y] == multiset(r)[y];
      assert y in Select(s, key, k);
      assert multiset(Select(s, key, k))[y] == multiset(s)[y];
    }
    forall y | y in s
      ensures multiset(r)[y] == multiset(s)[y]
    {
      var k := key(y);
      FilterSpec(r, HasKey(key, k));
      FilterSpec(s, HasKey(key, k));
      assert multiset(Select(s, key, k))[y] == multiset(s)[y];
      assert y in Select(r, key, k);
      assert multiset(Select(r, key, k))[y] == multiset(r)[y];
    }
    assert forall y :: multiset(r)[y] == multiset(s)[y];
  }

  /** Puts `x` after every element whose key is at most its own, as the
      insertion step of a stable sort does. */
  function Insert<T>(s: seq<T>, x: T, key: T -> seq<int>): seq<T>
  {
    if s == [] then [x]
    else if LexLe(key(s[0]), key(x)) then [s[0]] + Insert(s[1..], x, key)
    else [x] + s
  }

  lemma {:induction false} InsertElements<T>(s: seq<T>, x: T, key: T -> seq<int>)
    ensures multiset(Insert(s, x, key)) == multiset(s) + multiset{x}
  {
    if s != [] {
      assert s == [s[0]] + s[1..];
      if LexLe(key(s[0]), key(x)) {
        InsertElements(s[1..], x, key);
      }
    }
  }

  lemma {:induction false} InsertSorted<T>(s: seq<T>, x: T, key: T -> seq<int>)
    requires SortedBy(s, key)
    ensures SortedBy(Insert(s, x, key), key)
  {
    if s == [] {
    } else if LexLe(key(s[0]), key(x)) {
      var rest := Insert(s[1..], x, key);
      InsertSorted(s[1..], x, key);
      InsertElements(s[1..], x, key);
      var r := [s[0]] + rest;
      forall j | 0 < j < |r|
        ensures LexLe(key(r[0]), key(r[j]))
      {
        assert r[j] in multiset(rest);
        assert r[j] in multiset(s[1..]) || r[j] == x;
        if r[j] != x {
          var m :| 0 <= m < |s[1..]| && s[1..][m] == r[j];
          assert s[m + 1] == r[j];
        }
      }
    } else {
      var r := [x] + s;
      LexLeTotal(key(s[0]), key(x));
      forall j | 0 < j < |r|
        ensures LexLe(key(r[0]), key(r[j]))
      {
        if j > 1 {
          LexLeTrans(key(x), key(s[0]), key(s[j - 1]));
        }
      }
    }
  }

  /** Inserting `x` appends it to the run of its own key and leaves every
      other run alone. */
  lemma {:induction false} InsertRuns<T>(s: seq<T>, x: T, key: T -> seq<int>, k: seq<int>)
    requires SortedBy(s, key)
    ensures Select(Insert(s, x, key), key, k) ==
            Select(s, key, k) + (if key(x) == k then [x] else [])
  {
    var p := HasKey(key, k);
    var tail := if key(x) == k then [x] else [];
    if s == [] {
      FilterCons(x, [], p);
      assert [x] + [] == [x];
    } else if LexLe(key(s[0]), key(x)) {
      var head := if key(s[0]) == k then [s[0]] else [];
      InsertRuns(s[1..], x, key, k);
      FilterCons(s[0], Insert(s[1..], x, key), p);
      FilterCons(s[0], s[1..], p);
      assert [s[0]] + s[1..] == s;
      calc {
        Select(Insert(s, x, key), key, k);
        Filter([s[0]] + Insert(s[1..], x, key), p);
        head + Filter(Insert(s[1..], x, key), p);
        head + (Select(s[1..], key, k) + tail);
        (head + Filter(s[1..], p)) + tail;
        Filter(s, p) + tail;
      }
    } else {
      FilterCons(x, s, p);
      if key(x) == k {
        forall i | 0 <= i < |s|
          ensures !p(s[i])
        {
          LexLeRefl(key(x));
          if i > 0 {
            assert LexLe(key(s[0]), key(s[i]));
          }
        }
        FilterNone(s, p);
      }
    }
  }

  /** A stable sort, built by inserting the elements one by one in list
      order: the result is ordered by key and keeps every run. */
  function SortBy<T>(s: seq<T>, key: T -> seq<int>): (r: seq<T>)
    ensures SortedBy(r, key)
    ensures SameRunsBy(r, s, key)
  {
    if s == [] then []
    else
      var init, last := s[..|s| - 1], s[|s| - 1];
      var sorted := SortBy(init, key);
      InsertSorted(sorted, last, key);
      InsertSortRuns(init, last, sorted, key);
      assert s == init + [last];
      Insert(sorted, last, key)
  }

  lemma InsertSortRuns<T>(init: seq<T>, last: T, sorted: seq<T>, key: T -> seq<int>)
    requires SortedBy(sorted, key) && SameRunsBy(sorted, init, key)
    ensures SameRunsBy(Insert(sorted, last, key), init + [last], key)
  {
    forall k
      ensures Select(Insert(sorted, last, key), key, k) == Select(init + [last], key, k)
    {
      InsertRuns(sorted, last, key, k);
      FilterAppend(init, last, HasKey(key, k));
    }
  }

  /** A list ordered by key that keeps every run of another is determined by
      it: any stable sort, Python's included, gives the same list as SortBy. */
  lemma {:induction false} StableSortIsUnique<T>(r1: seq<T>, r2: seq<T>, key: T -> seq<int>)
    requires SortedBy(r1, key) && SortedBy(r2, key)
    requires SameRunsBy(r1, r2, key)
    ensures r1 == r2
    decreases |r1|
  {
    if r1 == [] {
      if r2 != [] {
        NonEmptyRun(r2, key);
        assert false;
      }
    } else if r2 == [] {
      NonEmptyRun(r1, key);
      assert false;
    } else {
      var a, b := r1[0], r2[0];
      var ka, kb := key(a), key(b);
      assert r1 == [a] + r1[1..] && r2 == [b] + r2[1..];
      FilterCons(a, r1[1..], HasKey(key, ka));
      FilterCons(b, r2[1..], HasKey(key, kb));
      // b's key is present in r1, so it is at least a's key, and vice versa.
      FirstKeyIsLeast(r1, key, kb, Select(r2, key, kb)[0]);
      FirstKeyIsLeast(r2, key, ka, Select(r1, key, ka)[0]);
      LexLeAntisym(ka, kb);
      assert a == Select(r1, key, ka)[0] == Select(r2, key, kb)[0] == b;
      forall k
        ensures Select(r1[1..], key, k) == Select(r2[1..], key, k)
      {
        FilterCons(a, r1[1..], HasKey(key, k));
        FilterCons(b, r2[1..], HasKey(key, k));
        assert Select(r1, key, k) == Select(r2, key, k);
        var h := if key(a) == k then [a] else [];
        assert Select(r1, key, k) == h + Select(r1[1..], key, k);
        assert Select(r2, key, k) == h + Select(r2[1..], key, k);
        assert Select(r1[1..], key, k) == Select(r1, key, k)[|h|..];
      }
      StableSortIsUnique(r1[1..], r2[1..], key);
    }
  }

  /** The run of the first element's key is never empty. */
  lemma NonEmptyRun<T>(s: seq<T>, key: T -> seq<int>)
    requires s != []
    ensures Select(s, key, key(s[0])) != []
  {
  }

  /** In a list ordered by key, no element's key is below the first one's. */
  lemma FirstKeyIsLeast<T>(s: seq<T>, key: T -> seq<int>, k: seq<int>, y: T)
    requires SortedBy(s, key) && s != []
    requires y in Select(s, key, k)
    ensures LexLe(key(s[0]), k)
  {
    FilterSpec(s, HasKey(key, k));
    var j :| 0 <= j < |s| && s[j] == y;
    if j == 0 {
      LexLeRefl(key(s[0]));
    }
  }

  /** The sort key of criterion "1": the code points of the lower-cased
      name. */
  function NameKey(st: Student): (r: seq<int>)
    ensures |r| == |st.name|
    ensures forall i :: 0 <= i < |r| ==> r[i] == Lower(st.name[i]) as int
  {
    CodePoints(LowerString(st.name))
  }

  /** Two students have the same name key exactly when their names are
      equal ignoring case: the runs a stable sort by name keeps are the
      students whose names differ only in case. */
  lemma NameKeysEqual(a: Student, b: Student)
    ensures NameKey(a) == NameKey(b) <==> EqualsIgnoreCase(a.name, b.name)
  {
  }

  /** The sort key of criterion "2": the parsed moment the student was added,
      as (year, month, day, hour, minute, second), which compares as Python
      compares datetimes. Only used when every timestamp parses. */
  function TimestampKey(st: Student): (r: seq<int>)
    ensures ParseTimestamp(st.dateAdded).Some? ==> |r| == 6
    ensures ParseTimestamp(st.dateAdded).None? ==> r == []
  {
    match ParseTimestamp(st.dateAdded)
    case Some(t) => [t.date.year, t.date.month, t.date.day, t.hour, t.minute, t.second]
    case None => []
  }

  /** Two readable timestamps have the same key exactly when they are the
      same text: the runs a stable sort by date keeps are the students added
      at the same second. */
  lemma TimestampKeysEqual(a: Student, b: Student)
    requires ParseTimestamp(a.dateAdded).Some? && ParseTimestamp(b.dateAdded).Some?
    ensures TimestampKey(a) == TimestampKey(b) <==> a.dateAdded == b.dateAdded
  {
  }

  /** Moving an element of one key behind two of another keeps every run. */
  lemma RotateRuns<T>(a: T, b: T, c: T, key: T -> seq<int>)
    requires key(b) == key(c) && key(a) != key(b)
    ensures SameRunsBy([b, c, a], [a, b, c], key)
  {
    forall k
      ensures Select([b, c, a], key, k) == Select([a, b, c], key, k)
    {
      var p := HasKey(key, k);
      FilterCons(a, [b, c], p);
      FilterCons(b, [c], p);
      FilterCons(c, [], p);
      FilterCons(b, [c, a], p);
      FilterCons(c, [a], p);
      FilterCons(a, [], p);
      assert [a] + [b, c] == [a, b, c] && [b] + [c] == [b, c] && [c] + [] == [c];
      assert [b] + [c, a] == [b, c, a] && [c] + [a] == [c, a] && [a] + [] == [a];
    }
  }

  /** Sorting by name ignores case and keeps the order of names that differ
      only in case: "Bob", "alice", "Alice" sort to "alice", "Alice", "Bob". */
  lemma SortByNameExample()
    ensures var bob, alice, Alice := Student("Bob", "2024-01-01 09:00:00"),
              Student("alice", "2024-01-02 09:00:00"), Student("Alice", "2024-01-03 09:00:00");
            SortBy([bob, alice, Alice], NameKey) == [alice, Alice, bob]
  {
    var bob, alice, Alice := Student("Bob", "2024-01-01 09:00:00"),
      Student("alice", "2024-01-02 09:00:00"), Student("Alice", "2024-01-03 09:00:00");
    var s, expected := [bob, alice, Alice], [alice, Alice, bob];
    assert LowerString("Bob") == "bob";
    assert LowerString("alice") == "alice";
    assert LowerString("Alice") == "alice";
    var kb, ka := NameKey(bob), NameKey(alice);
    assert ka == [97, 108, 105, 99, 101] && kb == [98, 111, 98];
    assert NameKey(Alice) == ka;
    assert LexLe(ka, kb);
    LexLeRefl(ka);
    assert SortedBy(expected, NameKey);
    RotateRuns(bob, alice, Alice, NameKey);
    var sorted := SortBy(s, NameKey);
    assert SameRunsBy(sorted, expected, NameKey);
    StableSortIsUnique(sorted, expected, NameKey);
  }
}
