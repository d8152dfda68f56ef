/** The three orders of the process list and the stable sort that `sort_by` performs. */
module Sorting {
  import opened Text
  import opened Process

  datatype SortMode = Name | Cpu | Memory

  /** `toggle_sort`: Name, then Cpu, then Memory, then Name again. */
  function Cycle(m: SortMode): (r: SortMode)
    ensures r != m
  {
    match m
    case Name => Cpu
    case Cpu => Memory
    case Memory => Name
  }

  /** Cycling visits all three modes and three steps come back to the start. */
  lemma CycleOrbit(m: SortMode)
    ensures Cycle(Cycle(Cycle(m))) == m
    ensures {m, Cycle(m), Cycle(Cycle(m))} == {Name, Cpu, Memory}
  {
  }

  /** The comparator handed to `sort_by` says Less: `a` goes strictly ahead of `b`.
      Name compares names ascending, Cpu and Memory compare their values descending. */
  predicate Before(a: ProcessInfo, b: ProcessInfo, m: SortMode)
    ensures Before(a, b, m) ==> !SameKey(a, b, m)
  {
    match m
    case Name => LexLess(a.name, b.name)
    case Cpu => a.cpuUsage > b.cpuUsage
    case Memory => a.memory > b.memory
  }

  /** The comparator says Equal: `a` and `b` have the same sort key. */
  predicate SameKey(a: ProcessInfo, b: ProcessInfo, m: SortMode)
  {
    match m
    case Name => a.name == b.name
    case Cpu => a.cpuUsage == b.cpuUsage
    case Memory => a.memory == b.memory
  }

  lemma BeforeIrreflexive(a: ProcessInfo, m: SortMode)
    ensures !Before(a, a, m)
  {
    if m == Name {
      LexLessIrreflexive(a.name);
    }
  }

  lemma BeforeTransitive(a: ProcessInfo, b: ProcessInfo, c: ProcessInfo, m: SortMode)
    requires Before(a, b, m) && Before(b, c, m)
    ensures Before(a, c, m)
  {
    if m == Name {
      LexLessTransitive(a.name, b.name, c.name);
    }
  }

  /** Exactly one of "ahead", "behind" and "same key" holds: the comparator is a total order on keys. */
  lemma Trichotomy(a: ProcessInfo, b: ProcessInfo, m: SortMode)
    ensures SameKey(a, b, m) <==> !Before(a, b, m) && !Before(b, a, m)
    ensures Before(a, b, m) ==> !Before(b, a, m)
  {
    if m == Name {
      if a.name != b.name {
        LexLessTotal(a.name, b.name);
      } else {
        LexLessIrreflexive(a.name);
      }
      if LexLess(a.name, b.name) && LexLess(b.name, a.name) {
        LexLessTransitive(a.name, b.name, a.name);
        LexLessIrreflexive(a.name);
      }
    }
  }

  /** "Not ahead of" is transitive. */
  lemma NotBeforeTransitive(a: ProcessInfo, b: ProcessInfo, c: ProcessInfo, m: SortMode)
    requires !Before(a, b, m) && !Before(b, c, m)
    ensures !Before(a, c, m)
  {
    if m == Name && LexLess(a.name, c.name) && a.name != b.name {
      LexLessTotal(a.name, b.name);
      LexLessTransitive(b.name, a.name, c.name);
    }
  }

  /** No record is ahead of a later one. */
  predicate Sorted(s: seq<ProcessInfo>, m: SortMode)
  {
    forall i, j :: 0 <= i < j < |s| ==> !Before(s[j], s[i], m)
  }

  /** The records of `s` whose key equals that of `k`, in their order in `s`. */
  function KeyClass(s: seq<ProcessInfo>, k: ProcessInfo, m: SortMode): seq<ProcessInfo>
  {
    if s == [] then []
    else (if SameKey(s[0], k, m) then [s[0]] else []) + KeyClass(s[1..], k, m)
  }

  /** `r` keeps the relative order of records with equal keys that they have in `s`. */
  ghost predicate Stable(s: seq<ProcessInfo>, r: seq<ProcessInfo>, m: SortMode)
  {
    forall k :: KeyClass(r, k, m) == KeyClass(s, k, m)
  }

  /** Insert `x` ahead of the first record that is not strictly ahead of it. */
  function Insert(x: ProcessInfo, s: seq<ProcessInfo>, m: SortMode): (r: seq<ProcessInfo>)
    ensures |r| == |s| + 1
  {
    if s == [] then [x]
    else if Before(s[0], x, m) then [s[0]] + Insert(x, s[1..], m)
    else [x] + s
  }

  /** `sort_by` with the comparator of `m`: a stable insertion sort. */
  function SortBy(s: seq<ProcessInfo>, m: SortMode): (r: seq<ProcessInfo>)
    ensures |r| == |s|
  {
    if s == [] then [] else Insert(s[0], SortBy(s[1..], m), m)
  }

  lemma {:induction false} InsertPermutes(x: ProcessInfo, s: seq<ProcessInfo>, m: SortMode)
    ensures multiset(Insert(x, s, m)) == multiset(s) + multiset{x}
    decreases |s|
  {
    if s != [] {
      assert s == [s[0]] + s[1..];
      if Before(s[0], x, m) {
        InsertPermutes(x, s[1..], m);
      }
    }
  }

  /** A record that no later record goes ahead of can lead a sorted list. */
  lemma SortedCons(h: ProcessInfo, t: seq<ProcessInfo>, m: SortMode)
    requires Sorted(t, m)
    requires forall e :: e in t ==> !Before(e, h, m)
    ensures Sorted([h] + t, m)
  {
    var r := [h] + t;
    forall i, j | 0 <= i < j < |r|
      ensures !Before(r[j], r[i], m)
    {
      if i == 0 {
        assert r[j] == t[j - 1];
      } else {
        assert r[i] == t[i - 1] && r[j] == t[j - 1];
      }
    }
  }

  lemma {:induction false} InsertSorted(x: ProcessInfo, s: seq<ProcessInfo>, m: SortMode)
    requires Sorted(s, m)
    ensures Sorted(Insert(x, s, m), m)
    decreases |s|
  {
    if s == [] {
    } else if Before(s[0], x, m) {
      var t := Insert(x, s[1..], m);
      SortedTail(s, m);
      InsertSorted(x, s[1..], m);
      InsertPermutes(x, s[1..], m);
      forall e | e in t
        ensures !Before(e, s[0], m)
      {
        assert e in multiset(t);
        if e == x {
          Trichotomy(s[0], x, m);
        } else {
          assert e in multiset(s[1..]);
          var j :| 0 <= j < |s[1..]| && s[1..][j] == e;
          assert s[j + 1] == e;
        }
      }
      SortedCons(s[0], t, m);
    } else {
      forall e | e in s
        ensures !Before(e, x, m)
      {
        var j :| 0 <= j < |s| && s[j] == e;
        if j > 0 {
          NotBeforeTransitive(s[j], s[0], x, m);
        }
      }
      SortedCons(x, s, m);
    }
  }

  /** Inserting `x` adds it to the front of its own key class and leaves the other classes alone. */
  lemma {:induction false} InsertKeyClass(x: ProcessInfo, s: seq<ProcessInfo>, k: ProcessInfo, m: SortMode)
    ensures KeyClass(Insert(x, s, m), k, m) == (if SameKey(x, k, m) then [x] else []) + KeyClass(s, k, m)
    decreases |s|
  {
    if s != [] {
      if Before(s[0], x, m) {
        var t := Insert(x, s[1..], m);
        InsertKeyClass(x, s[1..], k, m);
        assert ([s[0]] + t)[1..] == t;
        if SameKey(x, k, m) {
          Trichotomy(s[0], x, m);
          assert !SameKey(s[0], k, m);
        }
      } else {
        assert ([x] + s)[1..] == s;
      }
    }
  }

  /** `SortBy` sorts: its result is ordered, is a permutation of its input, and is stable. */
  lemma {:induction false} SortByCorrect(s: seq<ProcessInfo>, m: SortMode)
    ensures Sorted(SortBy(s, m), m)
    ensures multiset(SortBy(s, m)) == multiset(s)
    ensures Stable(s, SortBy(s, m), m)
    decreases |s|
  {
    if s != [] {
      SortByCorrect(s[1..], m);
      InsertSorted(s[0], SortBy(s[1..], m), m);
      InsertPermutes(s[0], SortBy(s[1..], m), m);
      assert s == [s[0]] + s[1..];
      forall k
        ensures KeyClass(SortBy(s, m), k, m) == KeyClass(s, k, m)
      {
        InsertKeyClass(s[0], SortBy(s[1..], m), k, m);
      }
    }
  }

  lemma {:induction false} KeyClassMembers(s: seq<ProcessInfo>, k: ProcessInfo, m: SortMode)
    ensures forall e :: e in KeyClass(s, k, m) <==> e in s && SameKey(e, k, m)
    decreases |s|
  {
    if s != [] {
      KeyClassMembers(s[1..], k, m);
      assert s == [s[0]] + s[1..];
    }
  }

  lemma SortedTail(s: seq<ProcessInfo>, m: SortMode)
    requires Sorted(s, m) && s != []
    ensures Sorted(s[1..], m)
  {
    forall i, j | 0 <= i < j < |s| - 1
      ensures !Before(s[1..][j], s[1..][i], m)
    {
      assert s[1..][j] == s[j + 1] && s[1..][i] == s[i + 1];
    }
  }

  /** Two sorted lists with the same key classes start with the same record. */
  lemma SameHead(r: seq<ProcessInfo>, t: seq<ProcessInfo>, m: SortMode)
    requires Sorted(r, m) && Sorted(t, m) && r != [] && t != []
    requires forall k :: KeyClass(r, k, m) == KeyClass(t, k, m)
    ensures r[0] == t[0]
  {
    KeyClassMembers(r, t[0], m);
    KeyClassMembers(t, r[0], m);
    assert r[0] in KeyClass(r, r[0], m);
    assert t[0] in KeyClass(t, t[0], m);
    var i :| 0 <= i < |t| && t[i] == r[0];
    var j :| 0 <= j < |r| && r[j] == t[0];
    if i > 0 {
      assert !Before(t[i], t[0], m);
    } else {
      BeforeIrreflexive(r[0], m);
    }
    if j > 0 {
      assert !Before(r[j], r[0], m);
    } else {
      BeforeIrreflexive(t[0], m);
    }
    Trichotomy(r[0], t[0], m);
    assert KeyClass(r, r[0], m) == [r[0]] + KeyClass(r[1..], r[0], m);
    assert KeyClass(t, r[0], m) == [t[0]] + KeyClass(t[1..], r[0], m);
    assert r[0] == KeyClass(r, r[0], m)[0] == KeyClass(t, r[0], m)[0] == t[0];
  }

  /** Dropping a common head keeps the key classes equal. */
  lemma SameTailClasses(r: seq<ProcessInfo>, t: seq<ProcessInfo>, m: SortMode)
    requires r != [] && t != [] && r[0] == t[0]
    requires forall k :: KeyClass(r, k, m) == KeyClass(t, k, m)
    ensures forall k :: KeyClass(r[1..], k, m) == KeyClass(t[1..], k, m)
  {
    forall k
      ensures KeyClass(r[1..], k, m) == KeyClass(t[1..], k, m)
    {
      var h := if SameKey(r[0], k, m) then [r[0]] else [];
      assert KeyClass(r, k, m) == h + KeyClass(r[1..], k, m);
      assert KeyClass(t, k, m) == h + KeyClass(t[1..], k, m);
      assert KeyClass(r[1..], k, m) == (h + KeyClass(r[1..], k, m))[|h|..];
      assert KeyClass(t[1..], k, m) == (h + KeyClass(t[1..], k, m))[|h|..];
    }
  }

  lemma KeyClassOwnHead(s: seq<ProcessInfo>, m: SortMode)
    requires s != []
    ensures KeyClass(s, s[0], m) != []
  {
  }

  /** Sortedness and stability pin the arrangement down: two sorted arrangements with the
      same key classes are equal. */
  lemma {:induction false} SortedStableUnique(r: seq<ProcessInfo>, t: seq<ProcessInfo>, m: SortMode)
    requires Sorted(r, m) && Sorted(t, m)
    requires forall k :: KeyClass(r, k, m) == KeyClass(t, k, m)
    ensures r == t
    decreases |r|
  {
    if r == [] && t != [] {
      KeyClassOwnHead(t, m);
      assert false;
    } else if r != [] && t == [] {
      KeyClassOwnHead(r, m);
      assert false;
    } else if r != [] {
      SameHead(r, t, m);
      SameTailClasses(r, t, m);
      SortedTail(r, m);
      SortedTail(t, m);
      SortedStableUnique(r[1..], t[1..], m);
      assert r == [r[0]] + r[1..] && t == [t[0]] + t[1..];
    }
  }

  /** Any stable sort of `s` gives exactly `SortBy(s, m)`, so `SortBy` stands for `sort_by`
      whatever algorithm the standard library uses. */
  lemma StableSortIsSortBy(s: seq<ProcessInfo>, r: seq<ProcessInfo>, m: SortMode)
    requires Sorted(r, m) && Stable(s, r, m)
    ensures r == SortBy(s, m)
  {
    SortByCorrect(s, m);
    SortedStableUnique(r, SortBy(s, m), m);
  }
}
