/** `Note.sortNotesBy`: bubble sort of notes by a caller-supplied integer key
    (the `SortingCallback`), and what makes its result unique. */
module NoteSort {
  import opened Pitch

  /** The notes of `s` whose key is `k`, in their order in `s`. A sort is
      stable exactly when it keeps every one of these subsequences. */
  function KeyClass(s: seq<Note>, key: Note -> int, k: int): (r: seq<Note>)
    ensures |r| <= |s|
  {
    if s == [] then []
    else (if key(s[0]) == k then [s[0]] else []) + KeyClass(s[1..], key, k)
  }

  /** Non-decreasing by key. */
  predicate SortedBy(s: seq<Note>, key: Note -> int) {
    forall p, q :: 0 <= p < q < |s| ==> key(s[p]) <= key(s[q])
  }

  /** Same notes, and notes of equal key in the same relative order. */
  ghost predicate SameKeyClasses(s: seq<Note>, t: seq<Note>, key: Note -> int) {
    forall k :: KeyClass(s, key, k) == KeyClass(t, key, k)
  }

  predicate SortedSlice(s: seq<Note>, key: Note -> int, lo: int, hi: int)
    requires 0 <= lo && hi <= |s|
  {
    forall p, q :: lo <= p < q < hi ==> key(s[p]) <= key(s[q])
  }

  /** Nothing before index `m` has a larger key than anything from `m` on. */
  predicate SplitAt(s: seq<Note>, key: Note -> int, m: int)
    requires 0 <= m <= |s|
  {
    forall p, q :: 0 <= p < m <= q < |s| ==> key(s[p]) <= key(s[q])
  }

  function Swap(s: seq<Note>, j: int): (r: seq<Note>)
    requires 0 < j < |s|
    ensures |r| == |s| && r[j - 1] == s[j] && r[j] == s[j - 1]
    ensures forall p :: 0 <= p < |s| && p != j - 1 && p != j ==> r[p] == s[p]
    ensures multiset(r) == multiset(s)
  {
    s[j - 1 := s[j]][j := s[j - 1]]
  }

  lemma {:induction false} KeyClassAppend(s: seq<Note>, t: seq<Note>, key: Note -> int, k: int)
    ensures KeyClass(s + t, key, k) == KeyClass(s, key, k) + KeyClass(t, key, k)
  {
    if s != [] {
      var head := if key(s[0]) == k then [s[0]] else [];
      assert (s + t)[0] == s[0] && (s + t)[1..] == s[1..] + t;
      assert KeyClass(s + t, key, k) == head + KeyClass(s[1..] + t, key, k);
      KeyClassAppend(s[1..], t, key, k);
      assert KeyClass(s, key, k) == head + KeyClass(s[1..], key, k);
    } else {
      assert s + t == t;
    }
  }

  /** Exchanging two neighbours of different keys keeps every key class. */
  lemma SwapKeepsKeyClasses(s: seq<Note>, j: int, key: Note -> int, k: int)
    requires 0 < j < |s| && key(s[j - 1]) != key(s[j])
    ensures KeyClass(Swap(s, j), key, k) == KeyClass(s, key, k)
  {
    var x, y := s[j - 1], s[j];
    var pre, post := s[..j - 1], s[j + 1..];
    assert s == pre + ([x, y] + post);
    assert Swap(s, j) == pre + ([y, x] + post);
    KeyClassAppend(pre, [x, y] + post, key, k);
    KeyClassAppend([x, y], post, key, k);
    KeyClassAppend(pre, [y, x] + post, key, k);
    KeyClassAppend([y, x], post, key, k);
    assert [x, y][1..] == [y] && [y, x][1..] == [x];
  }

  /** Bubble sort exactly as the source loops: pass i bubbles the largest key
      of `a[..n-i]` to position n-i-1, swapping neighbours only on a strict
      `>` of their keys. */
  method SortNotesBy(notes: seq<Note>, key: Note -> int) returns (r: seq<Note>)
    ensures |r| == |notes| && multiset(r) == multiset(notes)
    ensures SortedBy(r, key)
    ensures SameKeyClasses(r, notes, key)
    ensures r == StableSortBy(notes, key)
  {
    var n := |notes|;
    var a := notes;
    var i := 0;
    while i < n - 1
      invariant 0 <= i <= n && |a| == n
      invariant n > 0 ==> i <= n - 1
      invariant multiset(a) == multiset(notes)
      invariant SameKeyClasses(a, notes, key)
      invariant SortedSlice(a, key, n - i, n)
      invariant SplitAt(a, key, n - i)
    {
      var j := 1;
      while j < n - i
        invariant 1 <= j <= n - i && |a| == n
        invariant forall p :: 0 <= p < j ==> key(a[p]) <= key(a[j - 1])
        invariant multiset(a) == multiset(notes)
        invariant SameKeyClasses(a, notes, key)
        invariant SortedSlice(a, key, n - i, n)
        invariant SplitAt(a, key, n - i)
      {
        if key(a[j - 1]) > key(a[j]) {
          forall k ensures KeyClass(Swap(a, j), key, k) == KeyClass(a, key, k) {
            SwapKeepsKeyClasses(a, j, key, k);
          }
          a := Swap(a, j);
        }
        j := j + 1;
      }
      i := i + 1;
    }
    r := a;
    StableSortByIsStable(notes, key);
    StableSortIsUnique(r, StableSortBy(notes, key), key);
  }

  /** A class that is not empty starts with the first note of `s` that has
      its key. */
  lemma {:induction false} KeyClassMember(s: seq<Note>, key: Note -> int, k: int) returns (i: int)
    requires |KeyClass(s, key, k)| > 0
    ensures 0 <= i < |s| && key(s[i]) == k
    ensures KeyClass(s, key, k)[0] == s[i] && forall j :: 0 <= j < i ==> key(s[j]) != k
  {
    if key(s[0]) == k {
      i := 0;
    } else {
      var i' := KeyClassMember(s[1..], key, k);
      i := i' + 1;
    }
  }

  /** `KeyClassMember` as a fact: some index holds the class's first note. */
  lemma KeyClassHead(s: seq<Note>, key: Note -> int, k: int)
    requires |KeyClass(s, key, k)| > 0
    ensures exists i :: 0 <= i < |s| && key(s[i]) == k && KeyClass(s, key, k)[0] == s[i]
                        && forall j :: 0 <= j < i ==> key(s[j]) != k
  {
    var i := KeyClassMember(s, key, k);
  }

  /** The first note's own key class is not empty. */
  lemma LeadingClass(s: seq<Note>, key: Note -> int)
    requires s != []
    ensures KeyClass(s, key, key(s[0])) != []
  {
  }

  /** A stable sort has one possible result: two key-sorted sequences with
      the same key classes are equal. So the output of `SortNotesBy` is
      determined by its contract alone. */
  lemma {:induction false} StableSortIsUnique(r: seq<Note>, s: seq<Note>, key: Note -> int)
    requires SortedBy(r, key) && SortedBy(s, key)
    requires SameKeyClasses(r, s, key)
    ensures r == s
    decreases |r|
  {
    if r == [] {
      if s != [] {
        LeadingClass(s, key);
      }
    } else {
      HeadsAgree(r, s, key);
      TailClasses(r, s, key);
      assert SortedBy(r[1..], key) && SortedBy(s[1..], key);
      StableSortIsUnique(r[1..], s[1..], key);
      assert r == [r[0]] + r[1..] && s == [s[0]] + s[1..];
    }
  }

  /** Two key-sorted sequences with the same key classes start alike: the
      smallest key's class leads both. */
  lemma HeadsAgree(r: seq<Note>, s: seq<Note>, key: Note -> int)
    requires SortedBy(r, key) && SortedBy(s, key)
    requires SameKeyClasses(r, s, key) && r != []
    ensures s != [] && r[0] == s[0]
  {
    var kr := key(r[0]);
    assert KeyClass(r, key, kr) == [r[0]] + KeyClass(r[1..], key, kr);
    assert KeyClass(s, key, kr) == KeyClass(r, key, kr);
    var i := KeyClassMember(s, key, kr);
    var ks := key(s[0]);
    assert KeyClass(s, key, ks) == [s[0]] + KeyClass(s[1..], key, ks);
    assert KeyClass(r, key, ks) == KeyClass(s, key, ks);
    var h := KeyClassMember(r, key, ks);
    assert ks <= kr && kr <= ks;
    assert r[0] == KeyClass(r, key, kr)[0] == KeyClass(s, key, kr)[0] == s[0];
  }

  /** Dropping a shared first note keeps the key classes equal. */
  lemma TailClasses(r: seq<Note>, s: seq<Note>, key: Note -> int)
    requires SameKeyClasses(r, s, key) && r != [] && s != [] && r[0] == s[0]
    ensures SameKeyClasses(r[1..], s[1..], key)
  {
    forall k ensures KeyClass(r[1..], key, k) == KeyClass(s[1..], key, k) {
      var head := if k == key(r[0]) then [r[0]] else [];
      assert KeyClass(r, key, k) == head + KeyClass(r[1..], key, k);
      assert KeyClass(s, key, k) == head + KeyClass(s[1..], key, k);
      assert KeyClass(r, key, k) == KeyClass(s, key, k);
      assert (head + KeyClass(r[1..], key, k))[|head|..] == KeyClass(r[1..], key, k);
      assert (head + KeyClass(s[1..], key, k))[|head|..] == KeyClass(s[1..], key, k);
    }
  }

  // ------------------------------------------ a functional stable sort

  /** Inserts `x` after every element whose key is not larger than its own. */
  function InsertBy(x: Note, s: seq<Note>, key: Note -> int): (r: seq<Note>)
    ensures |r| == |s| + 1 && multiset(r) == multiset(s) + multiset{x}
  {
    if s == [] then [x]
    else if key(x) < key(s[0]) then [x] + s
    else
      assert s == [s[0]] + s[1..];
      [s[0]] + InsertBy(x, s[1..], key)
  }

  /** Insertion sort from the left: a reference definition of a stable sort. */
  function StableSortBy(s: seq<Note>, key: Note -> int): (r: seq<Note>)
    ensures |r| == |s| && multiset(r) == multiset(s)
  {
    if s == [] then []
    else
      assert s == s[..|s| - 1] + [s[|s| - 1]];
      InsertBy(s[|s| - 1], StableSortBy(s[..|s| - 1], key), key)
  }

  /** No element of a sequence whose keys all exceed `k` has key `k`. */
  lemma {:induction false} KeyClassAbove(s: seq<Note>, key: Note -> int, k: int)
    requires forall i :: 0 <= i < |s| ==> key(s[i]) > k
    ensures KeyClass(s, key, k) == []
  {
    if s != [] {
      KeyClassAbove(s[1..], key, k);
    }
  }

  lemma {:induction false} InsertByKeepsOrder(x: Note, s: seq<Note>, key: Note -> int)
    requires SortedBy(s, key)
    ensures SortedBy(InsertBy(x, s, key), key)
    ensures s != [] ==> InsertBy(x, s, key)[0] == s[0] || InsertBy(x, s, key)[0] == x
  {
    if s != [] && key(x) >= key(s[0]) {
      InsertByKeepsOrder(x, s[1..], key);
      var t := InsertBy(x, s[1..], key);
      assert forall i :: 0 <= i < |t| ==> key(s[0]) <= key(t[i]) by {
        forall i | 0 <= i < |t| ensures key(s[0]) <= key(t[i]) {
          assert t[i] in multiset(s[1..]) + multiset{x};
          if t[i] in multiset(s[1..]) {
            var j :| 0 <= j < |s[1..]| && s[1..][j] == t[i];
            assert s[1..][j] == s[j + 1];
          }
        }
      }
    }
  }

  /** Inserting into a sorted sequence appends `x` to the end of its own key class. */
  lemma {:induction false} InsertByClasses(x: Note, s: seq<Note>, key: Note -> int, k: int)
    requires SortedBy(s, key)
    ensures KeyClass(InsertBy(x, s, key), key, k)
            == KeyClass(s, key, k) + (if key(x) == k then [x] else [])
  {
    var tail := if key(x) == k then [x] else [];
    if s == [] {
      assert KeyClass([x], key, k) == tail + KeyClass([], key, k);
    } else if key(x) < key(s[0]) {
      assert InsertBy(x, s, key) == [x] + s;
      FrontClass(x, s, key, k);
      assert KeyClass([x] + s, key, k) == tail + KeyClass(s, key, k);
      if key(x) == k {
        assert forall i :: 0 <= i < |s| ==> key(s[i]) > k by {
          forall i | 0 <= i < |s| ensures key(s[i]) > k {
            assert key(s[0]) <= key(s[i]);
          }
        }
        KeyClassAbove(s, key, k);
      }
    } else {
      var rest := InsertBy(x, s[1..], key);
      assert InsertBy(x, s, key) == [s[0]] + rest;
      assert SortedBy(s[1..], key);
      InsertByClasses(x, s[1..], key, k);
      var head := if key(s[0]) == k then [s[0]] else [];
      FrontClass(s[0], rest, key, k);
      assert s == [s[0]] + s[1..];
      FrontClass(s[0], s[1..], key, k);
      assert KeyClass(s, key, k) == head + KeyClass(s[1..], key, k);
      assert KeyClass([s[0]] + rest, key, k) == head + (KeyClass(s[1..], key, k) + tail);
      ConcatAssociates(head, KeyClass(s[1..], key, k), tail);
    }
  }

  lemma ConcatAssociates(a: seq<Note>, b: seq<Note>, c: seq<Note>)
    ensures a + (b + c) == (a + b) + c
  {
  }

  /** The class of a sequence with one more note in front. */
  lemma FrontClass(y: Note, t: seq<Note>, key: Note -> int, k: int)
    ensures KeyClass([y] + t, key, k) == (if key(y) == k then [y] else []) + KeyClass(t, key, k)
  {
    assert ([y] + t)[1..] == t;
  }

  /** The reference sort is sorted and stable. */
  lemma {:induction false} StableSortByIsStable(s: seq<Note>, key: Note -> int)
    ensures SortedBy(StableSortBy(s, key), key)
    ensures SameKeyClasses(StableSortBy(s, key), s, key)
  {
    if s != [] {
      var init, x := s[..|s| - 1], s[|s| - 1];
      assert s == init + [x];
      StableSortByIsStable(init, key);
      InsertionStep(x, StableSortBy(init, key), init, key);
    }
  }

  /** The insertion step of the reference sort keeps it sorted and stable. */
  lemma InsertionStep(x: Note, sorted: seq<Note>, init: seq<Note>, key: Note -> int)
    requires SortedBy(sorted, key) && SameKeyClasses(sorted, init, key)
    ensures SortedBy(InsertBy(x, sorted, key), key)
    ensures SameKeyClasses(InsertBy(x, sorted, key), init + [x], key)
  {
    InsertByKeepsOrder(x, sorted, key);
    forall k ensures KeyClass(InsertBy(x, sorted, key), key, k) == KeyClass(init + [x], key, k) {
      InsertedClass(x, sorted, init, key, k);
    }
  }

  /** One key class after the insertion step of the reference sort. */
  lemma InsertedClass(x: Note, sorted: seq<Note>, init: seq<Note>, key: Note -> int, k: int)
    requires SortedBy(sorted, key)
    requires KeyClass(sorted, key, k) == KeyClass(init, key, k)
    ensures KeyClass(InsertBy(x, sorted, key), key, k) == KeyClass(init + [x], key, k)
  {
    InsertByClasses(x, sorted, key, k);
    KeyClassAppend(init, [x], key, k);
    assert KeyClass([x], key, k) == (if key(x) == k then [x] else []) + KeyClass([], key, k);
  }
}
