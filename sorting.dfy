/**
 * `sorted(section, key=lambda x: x.hostname)`: an ascending, stable sort of a
 * section by hostname. Python's own algorithm is not modelled; the insertion
 * sort below is a reference definition with the same result, which the lemmas
 * show to be sorted, a permutation of its input, and stable.
 */
module Sorting {
  import opened Text
  import opened Classifier

  /**
   * Places `m` in front of the first machine of `sorted` whose hostname is
   * not smaller than its own, so that it stays ahead of equal hostnames.
   */
  function Insert(m: Machine, sorted: seq<Machine>): seq<Machine>
    decreases |sorted|
  {
    if sorted == [] || AtMost(m.hostname, sorted[0].hostname) then [m] + sorted
    else [sorted[0]] + Insert(m, sorted[1..])
  }

  /** The section sorted ascending by hostname, equal hostnames in input order. */
  function SortByHostname(ms: seq<Machine>): seq<Machine> {
    if ms == [] then [] else Insert(ms[0], SortByHostname(ms[1..]))
  }

  /** Hostnames ascend along `ms`. */
  predicate SortedByHostname(ms: seq<Machine>) {
    forall i, j :: 0 <= i < j < |ms| ==> AtMost(ms[i].hostname, ms[j].hostname)
  }

  /** The machines of `ms` whose hostname is `h`, in the order of `ms`. */
  function WithHostname(ms: seq<Machine>, h: string): seq<Machine> {
    if ms == [] then []
    else (if ms[0].hostname == h then [ms[0]] else []) + WithHostname(ms[1..], h)
  }

  /** A machine whose hostname is at most every hostname of a sorted sequence can go in front. */
  lemma ConsSorted(x: Machine, s: seq<Machine>)
    requires SortedByHostname(s)
    requires forall e :: e in s ==> AtMost(x.hostname, e.hostname)
    ensures SortedByHostname([x] + s)
  {
    var r := [x] + s;
    forall i, j | 0 <= i < j < |r|
      ensures AtMost(r[i].hostname, r[j].hostname)
    {
      if i == 0 {
        assert r[j] == s[j - 1] && s[j - 1] in s;
      }
    }
  }

  /** Inserting adds exactly `m`: nothing is lost or duplicated. */
  lemma {:induction false} InsertPermutes(m: Machine, s: seq<Machine>)
    ensures multiset(Insert(m, s)) == multiset(s) + multiset{m}
    decreases |s|
  {
    if s != [] && !AtMost(m.hostname, s[0].hostname) {
      InsertPermutes(m, s[1..]);
      assert s == [s[0]] + s[1..];
    }
  }

  /** Inserting adds exactly `m` and keeps a sorted sequence sorted. */
  lemma {:induction false} InsertSorted(m: Machine, sorted: seq<Machine>)
    requires SortedByHostname(sorted)
    ensures multiset(Insert(m, sorted)) == multiset(sorted) + multiset{m}
    ensures SortedByHostname(Insert(m, sorted))
    decreases |sorted|
  {
    if sorted == [] || AtMost(m.hostname, sorted[0].hostname) {
      forall e | e in sorted
        ensures AtMost(m.hostname, e.hostname)
      {
        var k :| 0 <= k < |sorted| && sorted[k] == e;
        if k > 0 {
          AtMostTransitive(m.hostname, sorted[0].hostname, e.hostname);
        }
      }
      ConsSorted(m, sorted);
    } else {
      var first, rest := sorted[0], sorted[1..];
      assert sorted == [first] + rest;
      InsertSorted(m, rest);
      InsertPermutes(m, sorted);
      var tail := Insert(m, rest);
      AtMostTotal(m.hostname, first.hostname);
      forall e | e in tail
        ensures AtMost(first.hostname, e.hostname)
      {
        assert e in multiset(tail);
        if e != m {
          assert e in multiset(rest);
          var k :| 0 <= k < |rest| && rest[k] == e;
          assert sorted[k + 1] == e;
        }
      }
      ConsSorted(first, tail);
    }
  }

  /** The result of the sort is sorted ascending by hostname. */
  lemma {:induction false} SortIsSorted(ms: seq<Machine>)
    ensures SortedByHostname(SortByHostname(ms))
  {
    if ms != [] {
      SortIsSorted(ms[1..]);
      InsertSorted(ms[0], SortByHostname(ms[1..]));
    }
  }

  /** The sort neither loses nor duplicates a machine. */
  lemma {:induction false} SortIsPermutation(ms: seq<Machine>)
    ensures multiset(SortByHostname(ms)) == multiset(ms)
  {
    if ms != [] {
      SortIsPermutation(ms[1..]);
      InsertPermutes(ms[0], SortByHostname(ms[1..]));
      assert ms == [ms[0]] + ms[1..];
    }
  }

  /** The machines with hostname `h` in front of a sequence, then those of the rest. */
  lemma WithHostnameCons(x: Machine, s: seq<Machine>, h: string)
    ensures WithHostname([x] + s, h) == (if x.hostname == h then [x] else []) + WithHostname(s, h)
  {
    assert ([x] + s)[1..] == s;
  }

  /** Inserting `m` puts it ahead of every machine with the same hostname. */
  lemma {:induction false} InsertWithHostname(m: Machine, sorted: seq<Machine>, h: string)
    ensures WithHostname(Insert(m, sorted), h)
         == (if m.hostname == h then [m] else []) + WithHostname(sorted, h)
    decreases |sorted|
  {
    if sorted == [] || AtMost(m.hostname, sorted[0].hostname) {
      WithHostnameCons(m, sorted, h);
    } else {
      var first, rest := sorted[0], sorted[1..];
      LessIrreflexive(m.hostname);
      assert first.hostname != m.hostname;
      InsertWithHostname(m, rest, h);
      WithHostnameCons(first, Insert(m, rest), h);
      WithHostnameCons(first, rest, h);
      assert sorted == [first] + rest;
    }
  }

  /** Stability: machines with equal hostnames keep their relative input order. */
  lemma {:induction false} SortIsStable(ms: seq<Machine>, h: string)
    ensures WithHostname(SortByHostname(ms), h) == WithHostname(ms, h)
  {
    if ms != [] {
      SortIsStable(ms[1..], h);
      InsertWithHostname(ms[0], SortByHostname(ms[1..]), h);
    }
  }
}
