/** String helpers: ASCII lower-casing, substring search and the byte-wise order of `String::cmp`. */
module Text {

  /** ASCII lower-casing of one character; all other characters are left alone. */
  function LowerChar(c: char): char
  {
    if 'A' <= c <= 'Z' then (c as int + 32) as char else c
  }

  /** `to_lowercase`, restricted to ASCII letters: a character-wise map. */
  function Lower(s: string): (r: string)
    ensures |r| == |s|
    ensures forall i :: 0 <= i < |r| ==> !('A' <= r[i] <= 'Z')
  {
    seq(|s|, i requires 0 <= i < |s| => LowerChar(s[i]))
  }

  /** Lower-casing works character by character and keeps the length. */
  lemma LowerAt(s: string)
    ensures |Lower(s)| == |s|
    ensures forall i :: 0 <= i < |s| ==> Lower(s)[i] == LowerChar(s[i])
  {
  }

  /** A string without upper-case ASCII letters is its own lower-cased form. */
  lemma LowerIdentity(s: string)
    requires forall i :: 0 <= i < |s| ==> !('A' <= s[i] <= 'Z')
    ensures Lower(s) == s
  {
    LowerAt(s);
  }

  /** Lower-casing twice is lower-casing once. */
  lemma LowerIdempotent(s: string)
    ensures Lower(Lower(s)) == Lower(s)
  {
    LowerIdentity(Lower(s));
  }

  /** From offset `i` on, `s` agrees with `t` at positions `j`, `j + 1`, ... of `t`. */
  predicate AgreeFrom(s: string, t: string, i: nat, j: nat)
    decreases |t| - j
  {
    j >= |t| || (i + j < |s| && s[i + j] == t[j] && AgreeFrom(s, t, i, j + 1))
  }

  /** `t` occurs in `s` at some offset `i` or later. */
  predicate ContainsFrom(s: string, t: string, i: nat)
    decreases |s| - i
  {
    i + |t| <= |s| && (AgreeFrom(s, t, i, 0) || ContainsFrom(s, t, i + 1))
  }

  /** `s.contains(t)` (the empty string occurs everywhere). */
  predicate Contains(s: string, t: string)
    ensures Contains(s, t) ==> |t| <= |s|
    ensures t == [] ==> Contains(s, t)
  {
    ContainsFrom(s, t, 0)
  }

  /** `t` occurs in `s` starting at offset `i`. */
  predicate OccursAt(s: string, t: string, i: int)
  {
    0 <= i <= |s| - |t| && s[i..i + |t|] == t
  }

  lemma {:induction false} AgreeFromAt(s: string, t: string, i: nat, j: nat)
    requires i + |t| <= |s| && j <= |t|
    ensures AgreeFrom(s, t, i, j) <==> forall k :: j <= k < |t| ==> s[i + k] == t[k]
    decreases |t| - j
  {
    if j < |t| {
      AgreeFromAt(s, t, i, j + 1);
    }
  }

  lemma {:induction false} ContainsFromAt(s: string, t: string, i: nat)
    ensures ContainsFrom(s, t, i) <==> exists k :: i <= k && OccursAt(s, t, k)
    decreases |s| - i
  {
    if i + |t| <= |s| {
      AgreeFromAt(s, t, i, 0);
      assert AgreeFrom(s, t, i, 0) <==> OccursAt(s, t, i) by {
        if AgreeFrom(s, t, i, 0) {
          assert s[i..i + |t|] == t;
        }
      }
      ContainsFromAt(s, t, i + 1);
      if exists k :: i <= k && OccursAt(s, t, k) {
        var k :| i <= k && OccursAt(s, t, k);
        if k > i {
          assert exists k' :: i + 1 <= k' && OccursAt(s, t, k');
        }
      }
    }
  }

  /** Contains agrees with the textbook definition: some window of `s` equals `t`. */
  lemma ContainsAt(s: string, t: string)
    ensures Contains(s, t) <==> exists i :: OccursAt(s, t, i)
  {
    ContainsFromAt(s, t, 0);
  }

  /** Strict lexicographic order on code points. For UTF-8 strings this is the byte-wise
      order that `String::cmp` uses. */
  predicate LexLess(a: string, b: string)
    ensures LexLess(a, b) ==> a != b
    decreases |a|
  {
    if a == [] then b != []
    else b != [] && (a[0] < b[0] || (a[0] == b[0] && LexLess(a[1..], b[1..])))
  }

  /** LexLess agrees with the textbook definition: `a` is a proper prefix of `b`, or the
      two agree up to some index and `a` has the smaller character there. */
  lemma {:induction false} LexLessAt(a: string, b: string)
    ensures LexLess(a, b) <==>
      (|a| < |b| && b[..|a|] == a) ||
      (exists k :: 0 <= k < |a| && k < |b| && a[..k] == b[..k] && a[k] < b[k])
    decreases |a|
  {
    if a != [] && b != [] {
      LexLessAt(a[1..], b[1..]);
      if LexLess(a, b) && a[0] == b[0] && !(a[0] < b[0]) {
        if |a[1..]| < |b[1..]| && b[1..][..|a[1..]|] == a[1..] {
          assert b[..|a|] == [b[0]] + b[1..][..|a[1..]|];
          assert a == [a[0]] + a[1..];
        } else {
          var k :| 0 <= k < |a[1..]| && k < |b[1..]| && a[1..][..k] == b[1..][..k] && a[1..][k] < b[1..][k];
          assert a[..k + 1] == [a[0]] + a[1..][..k];
          assert b[..k + 1] == [b[0]] + b[1..][..k];
        }
      }
      if (|a| < |b| && b[..|a|] == a) {
        assert a[0] == b[0];
        assert b[1..][..|a[1..]|] == a[1..];
      }
      if exists k :: 0 <= k < |a| && k < |b| && a[..k] == b[..k] && a[k] < b[k] {
        var k :| 0 <= k < |a| && k < |b| && a[..k] == b[..k] && a[k] < b[k];
        if k > 0 {
          assert a[0] == a[..k][0] == b[..k][0] == b[0];
          assert a[1..][..k - 1] == a[1..k] == a[..k][1..];
          assert b[1..][..k - 1] == b[1..k] == b[..k][1..];
        }
      }
    }
  }

  lemma {:induction false} LexLessIrreflexive(a: string)
    ensures !LexLess(a, a)
    decreases |a|
  {
    if a != [] {
      LexLessIrreflexive(a[1..]);
    }
  }

  lemma {:induction false} LexLessTransitive(a: string, b: string, c: string)
    requires LexLess(a, b) && LexLess(b, c)
    ensures LexLess(a, c)
    decreases |a|
  {
    if a != [] && a[0] == b[0] && b[0] == c[0] {
      LexLessTransitive(a[1..], b[1..], c[1..]);
    }
  }

  lemma {:induction false} LexLessTotal(a: string, b: string)
    requires a != b
    ensures LexLess(a, b) || LexLess(b, a)
    decreases |a|
  {
    if a != [] && b != [] && a[0] == b[0] {
      assert a == [a[0]] + a[1..] && b == [b[0]] + b[1..];
      LexLessTotal(a[1..], b[1..]);
    }
  }
}
