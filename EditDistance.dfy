/** The one-edit string matcher used by the contact search: decides, in one
    pass with two cursors, whether two strings are at most one insertion,
    deletion or replacement apart.  It is proved against the textbook
    recursive Levenshtein distance. */
module EditDistance {

  function Min3(x: nat, y: nat, z: nat): nat {
    if x <= y && x <= z then x else if y <= z then y else z
  }

  /** Levenshtein distance: the least number of single-character insertions,
      deletions and replacements that turn `a` into `b`. */
  function Levenshtein(a: string, b: string): nat
    decreases |a| + |b|
  {
    if |a| == 0 then |b|
    else if |b| == 0 then |a|
    else Min3(Levenshtein(a[1..], b) + 1,
              Levenshtein(a, b[1..]) + 1,
              Levenshtein(a[1..], b[1..]) + (if a[0] == b[0] then 0 else 1))
  }

  /** The promise of the matcher's doc comment. */
  predicate WithinOneEdit(a: string, b: string) {
    Levenshtein(a, b) <= 1
  }

  lemma {:induction false} LevenshteinSelf(s: string)
    ensures Levenshtein(s, s) == 0
  {
    if |s| > 0 {
      LevenshteinSelf(s[1..]);
    }
  }

  lemma {:induction false} LevenshteinZeroMeansEqual(a: string, b: string)
    requires Levenshtein(a, b) == 0
    ensures a == b
    decreases |a| + |b|
  {
    if |a| > 0 && |b| > 0 {
      LevenshteinZeroMeansEqual(a[1..], b[1..]);
      assert a == [a[0]] + a[1..] && b == [b[0]] + b[1..];
    }
  }

  /** The distance is at least the difference of the lengths. */
  lemma {:induction false} LevenshteinLengthGap(a: string, b: string)
    ensures Levenshtein(a, b) >= |a| - |b|
    ensures Levenshtein(a, b) >= |b| - |a|
    decreases |a| + |b|
  {
    if |a| > 0 && |b| > 0 {
      LevenshteinLengthGap(a[1..], b);
      LevenshteinLengthGap(a, b[1..]);
      LevenshteinLengthGap(a[1..], b[1..]);
    }
  }

  lemma {:induction false} LevenshteinSymmetric(a: string, b: string)
    ensures Levenshtein(a, b) == Levenshtein(b, a)
    decreases |a| + |b|
  {
    if |a| > 0 && |b| > 0 {
      LevenshteinSymmetric(a[1..], b);
      LevenshteinSymmetric(a, b[1..]);
      LevenshteinSymmetric(a[1..], b[1..]);
    }
  }

  /** Dropping the first character is a single deletion, either way round. */
  lemma DropFirstIsOneEdit(s: string)
    requires |s| > 0
    ensures Levenshtein(s, s[1..]) <= 1
    ensures Levenshtein(s[1..], s) <= 1
  {
    LevenshteinSelf(s[1..]);
  }

  /** A common first character can be skipped without changing whether the
      strings are within one edit. */
  lemma CommonHead(a: string, b: string)
    requires |a| > 0 && |b| > 0 && a[0] == b[0]
    ensures WithinOneEdit(a, b) <==> WithinOneEdit(a[1..], b[1..])
  {
    if WithinOneEdit(a, b) && !WithinOneEdit(a[1..], b[1..]) {
      if Levenshtein(a[1..], b) == 0 {
        LevenshteinZeroMeansEqual(a[1..], b);
        DropFirstIsOneEdit(b);
      } else {
        assert Levenshtein(a, b[1..]) == 0;
        LevenshteinZeroMeansEqual(a, b[1..]);
        DropFirstIsOneEdit(a);
      }
    }
  }

  /** With different first characters the one allowed edit is spent at the
      front: skip the head of the longer string, or of both when the lengths
      are equal, and the rest must match exactly. */
  lemma HeadMismatch(a: string, b: string)
    requires |a| > 0 && |b| > 0 && a[0] != b[0]
    ensures |a| == |b| + 1 ==> (WithinOneEdit(a, b) <==> a[1..] == b)
    ensures |a| + 1 == |b| ==> (WithinOneEdit(a, b) <==> a == b[1..])
    ensures |a| == |b| ==> (WithinOneEdit(a, b) <==> a[1..] == b[1..])
  {
    if WithinOneEdit(a, b) {
      if Levenshtein(a[1..], b) == 0 {
        LevenshteinZeroMeansEqual(a[1..], b);
      } else if Levenshtein(a, b[1..]) == 0 {
        LevenshteinZeroMeansEqual(a, b[1..]);
      } else {
        LevenshteinZeroMeansEqual(a[1..], b[1..]);
      }
    }
    LevenshteinSelf(a[1..]);
    LevenshteinSelf(a);
  }

  /** The matcher: a length pre-check, then a two-cursor scan that spends at
      most one edit on the first mismatch, then one edit for an unmatched
      tail. */
  method IsEditDistanceOne(a: string, b: string) returns (r: bool)
    ensures r == WithinOneEdit(a, b)
  {
    var lenA, lenB := |a|, |b|;
    if lenA - lenB > 1 || lenB - lenA > 1 {
      LevenshteinLengthGap(a, b);
      return false;
    }
    var i, j, edits := 0, 0, 0;
    while i < lenA && j < lenB
      invariant 0 <= i <= lenA && 0 <= j <= lenB
      invariant edits == 0 || edits == 1
      invariant edits == 0 ==> i == j && (WithinOneEdit(a, b) <==> WithinOneEdit(a[i..], b[j..]))
      invariant edits == 1 ==> (WithinOneEdit(a, b) <==> a[i..] == b[j..])
      decreases lenA - i + lenB - j
    {
      if a[i] != b[j] {
        if edits == 1 {
          assert a[i..][0] != b[j..][0];
          return false;
        }
        HeadMismatch(a[i..], b[j..]);
        assert a[i..][1..] == a[i + 1..] && b[j..][1..] == b[j + 1..];
        if lenA > lenB {
          i := i + 1;
        } else if lenA < lenB {
          j := j + 1;
        } else {
          i := i + 1;
          j := j + 1;
        }
        edits := edits + 1;
      } else {
        assert a[i..] == [a[i]] + a[i + 1..] && b[j..] == [b[j]] + b[j + 1..];
        if edits == 0 {
          CommonHead(a[i..], b[j..]);
          assert a[i..][1..] == a[i + 1..] && b[j..][1..] == b[j + 1..];
        }
        i := i + 1;
        j := j + 1;
      }
    }
    ghost var scanned := edits;
    if i < lenA || j < lenB {
      edits := edits + 1;
    }
    r := edits <= 1;
    if scanned == 0 {
      assert |a[i..]| <= 1 && |b[j..]| <= 1;
      assert a[i..] == [] || b[j..] == [];
    } else if i < lenA || j < lenB {
      assert |a[i..]| != |b[j..]|;
    }
  }

  /** Swapping the arguments never changes the answer. */
  lemma WithinOneEditSymmetric(a: string, b: string)
    ensures WithinOneEdit(a, b) == WithinOneEdit(b, a)
  {
    LevenshteinSymmetric(a, b);
  }

  /** Identical strings, the empty pair included, are within one edit. */
  lemma WithinOneEditReflexive(s: string)
    ensures WithinOneEdit(s, s)
  {
    LevenshteinSelf(s);
  }

  /** Lengths more than one apart are never within one edit. */
  lemma LengthGapRejects(a: string, b: string)
    requires |a| > |b| + 1 || |b| > |a| + 1
    ensures !WithinOneEdit(a, b)
  {
    LevenshteinLengthGap(a, b);
  }

  /** Two mismatches after a common prefix: 'abcd' and 'abef'. */
  lemma SecondMismatchRejects()
    ensures !WithinOneEdit("abcd", "abef")
  {
    var a, b := "abcd", "abef";
    CommonHead(a, b);
    CommonHead(a[1..], b[1..]);
    assert a[1..][1..] == "cd" && b[1..][1..] == "ef";
    HeadMismatch("cd", "ef");
  }

  /** A skip in the longer string followed by a second mismatch: 'test' and
      'toast'. */
  lemma SkipThenMismatchRejects()
    ensures !WithinOneEdit("test", "toast")
  {
    var a, b := "test", "toast";
    CommonHead(a, b);
    assert a[1..] == "est" && b[1..] == "oast";
    HeadMismatch("est", "oast");
    assert "oast"[1..] == "ast";
  }

  /** One replacement, one insertion and one deletion are accepted. */
  lemma SingleEditsAccepted()
    ensures WithinOneEdit("test", "tent")
    ensures WithinOneEdit("abc", "abcd")
    ensures WithinOneEdit("ab", "a")
  {
    CommonHead("test", "tent");
    assert "test"[1..] == "est" && "tent"[1..] == "ent";
    CommonHead("est", "ent");
    assert "est"[1..] == "st" && "ent"[1..] == "nt";
    HeadMismatch("st", "nt");
    assert "st"[1..] == "t" && "nt"[1..] == "t";
    CommonHead("abc", "abcd");
    assert "abc"[1..] == "bc" && "abcd"[1..] == "bcd";
    CommonHead("bc", "bcd");
    assert "bc"[1..] == "c" && "bcd"[1..] == "cd";
    CommonHead("c", "cd");
    assert "c"[1..] == "" && "cd"[1..] == "d";
    CommonHead("ab", "a");
  }
}
