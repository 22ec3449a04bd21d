/**
 * The order `Array.prototype.sort()` puts strings in when it is given no
 * comparator: character by character, a proper prefix before any longer
 * string that extends it. The sort itself is specified by an insertion sort
 * proved to give an ascending permutation of its input.
 */
module StringOrder {
  import opened Seqs

  /** `a` sorts before `b` or is equal to it. */
  predicate NotAfter(a: string, b: string)
    decreases |a|
  {
    if a == [] then true
    else if b == [] then false
    else if a[0] != b[0] then a[0] < b[0]
    else NotAfter(a[1..], b[1..])
  }

  lemma {:induction false} NotAfterReflexive(a: string)
    ensures NotAfter(a, a)
    decreases |a|
  {
    if a != [] {
      NotAfterReflexive(a[1..]);
    }
  }

  /** Any two strings are comparable. */
  lemma {:induction false} NotAfterTotal(a: string, b: string)
    ensures NotAfter(a, b) || NotAfter(b, a)
    decreases |a|
  {
    if a != [] && b != [] && a[0] == b[0] {
      NotAfterTotal(a[1..], b[1..]);
    }
  }

  lemma {:induction false} NotAfterTransitive(a: string, b: string, c: string)
    requires NotAfter(a, b) && NotAfter(b, c)
    ensures NotAfter(a, c)
    decreases |a|
  {
    if a != [] && a[0] == b[0] && b[0] == c[0] {
      NotAfterTransitive(a[1..], b[1..], c[1..]);
    }
  }

  /** Two strings each not after the other are the same string. */
  lemma {:induction false} NotAfterAntisymmetric(a: string, b: string)
    requires NotAfter(a, b) && NotAfter(b, a)
    ensures a == b
    decreases |a|
  {
    if a != [] {
      NotAfterAntisymmetric(a[1..], b[1..]);
      assert a == [a[0]] + a[1..] && b == [b[0]] + b[1..];
    }
  }

  /** Every string is in order with every later string. */
  predicate Ascending(s: seq<string>) {
    forall i, j | 0 <= i < j < |s| :: NotAfter(s[i], s[j])
  }

  /** Where `x` goes in `s`: before the first element it does not come after. */
  function InsertionPoint(x: string, s: seq<string>): (k: nat)
    ensures k <= |s|
    ensures forall i | 0 <= i < k :: !NotAfter(x, s[i])
    ensures k < |s| ==> NotAfter(x, s[k])
  {
    if s == [] || NotAfter(x, s[0]) then 0 else 1 + InsertionPoint(x, s[1..])
  }

  /** `x` inserted into `s` at its place. */
  function Insert(x: string, s: seq<string>): (r: seq<string>)
    ensures multiset(r) == multiset(s) + multiset{x}
    ensures NoDup(s) && x !in s ==> NoDup(r)
  {
    var k := InsertionPoint(x, s);
    SpliceCounts(x, s, k);
    SpliceNoDup(x, s, k);
    s[..k] + [x] + s[k..]
  }

  /** Putting `x` in at position `k` adds one copy of it and keeps everything else. */
  lemma SpliceCounts(x: string, s: seq<string>, k: nat)
    requires k <= |s|
    ensures multiset(s[..k] + [x] + s[k..]) == multiset(s) + multiset{x}
  {
    assert s == s[..k] + s[k..];
  }

  /** Putting a new string in a duplicate-free list keeps it duplicate-free. */
  lemma SpliceNoDup(x: string, s: seq<string>, k: nat)
    requires k <= |s|
    ensures NoDup(s) && x !in s ==> NoDup(s[..k] + [x] + s[k..])
  {
    var r := s[..k] + [x] + s[k..];
    if NoDup(s) && x !in s {
      forall i, j | 0 <= i < j < |r| ensures r[i] != r[j] {
        var a := if i < k then i else i - 1;
        var b := if j < k then j else j - 1;
        if i == k {
          assert r[j] == s[b];
        } else if j == k {
          assert r[i] == s[a];
        } else {
          assert r[i] == s[a] && r[j] == s[b] && a < b;
        }
      }
    }
  }

  /** Inserting into an ascending list keeps it ascending. */
  lemma InsertAscending(x: string, s: seq<string>)
    requires Ascending(s)
    ensures Ascending(Insert(x, s))
  {
    var k := InsertionPoint(x, s);
    var r := Insert(x, s);
    assert r == s[..k] + [x] + s[k..];
    forall i, j | 0 <= i < j < |r| ensures NotAfter(r[i], r[j]) {
      if j < k {
        assert r[i] == s[i] && r[j] == s[j];
      } else if j == k {
        NotAfterTotal(x, s[i]);
      } else if i == k {
        if k < j - 1 {
          NotAfterTransitive(x, s[k], s[j - 1]);
        }
      } else if i < k {
        assert r[i] == s[i] && r[j] == s[j - 1];
      } else {
        assert r[i] == s[i - 1] && r[j] == s[j - 1];
      }
    }
  }

  /** The default `sort()` of a list of strings: an insertion sort. */
  function Sort(s: seq<string>): (r: seq<string>)
    ensures Ascending(r)
    ensures multiset(r) == multiset(s)
    ensures NoDup(s) ==> NoDup(r)
  {
    if s == [] then []
    else
      var rest := Sort(s[1..]);
      HeadAndTail(s);
      assert NoDup(s) ==> s[0] !in multiset(rest);
      InsertAscending(s[0], rest);
      Insert(s[0], rest)
  }

  /** A list is its head and its tail; without duplicates, the head is not in the tail. */
  lemma HeadAndTail(s: seq<string>)
    requires s != []
    ensures multiset(s) == multiset{s[0]} + multiset(s[1..])
    ensures NoDup(s) ==> NoDup(s[1..]) && s[0] !in multiset(s[1..])
  {
    assert s == [s[0]] + s[1..];
  }

  lemma HeadIsMember(s: seq<string>)
    requires s != []
    ensures s[0] in s
  {
  }

  /**
   * A duplicate-free ascending list is determined by its elements: whatever
   * order a duplicate-free list came in, sorting it gives this one list.
   */
  lemma {:induction false} AscendingUnique(a: seq<string>, b: seq<string>)
    requires Ascending(a) && Ascending(b) && NoDup(a) && NoDup(b)
    requires forall x :: x in a <==> x in b
    ensures a == b
    decreases |a|
  {
    if a != [] && b != [] {
      if a[0] != b[0] {
        // each head is the least element of both lists, so they are equal
        assert a[0] in a && b[0] in b;
        var ia :| 0 <= ia < |b| && b[ia] == a[0];
        var ib :| 0 <= ib < |a| && a[ib] == b[0];
        assert NotAfter(b[0], a[0]);
        assert NotAfter(a[0], b[0]);
        NotAfterAntisymmetric(a[0], b[0]);
      }
      forall x ensures x in a[1..] <==> x in b[1..] {
        if x in a[1..] {
          assert x != a[0];
          assert x in b;
        }
        if x in b[1..] {
          assert x != b[0];
          assert x in a;
        }
      }
      AscendingUnique(a[1..], b[1..]);
      assert a == [a[0]] + a[1..] && b == [b[0]] + b[1..];
    } else if a != [] {
      HeadIsMember(a);
      assert false;
    } else if b != [] {
      HeadIsMember(b);
      assert false;
    }
  }
}
