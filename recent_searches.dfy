/**
 * The recent-search history of the search page as a value: recording a
 * search moves it to the front, drops its older copies and keeps the five
 * newest; removing a search filters it out.
 */
module RecentSearches {

  /** How many recent searches the page keeps (`slice(0, 5)`). */
  const Capacity := 5

  predicate NoDuplicates(s: seq<string>) {
    forall i, j :: 0 <= i < j < |s| ==> s[i] != s[j]
  }

  /** `recent.filter(item => item !== term)`: every copy of `term` dropped, the rest in order. */
  function Without(recent: seq<string>, term: string): (r: seq<string>)
    ensures |r| <= |recent|
    ensures forall t {:trigger t in r} :: t in r <==> t in recent && t != term
  {
    if recent == [] then []
    else if recent[0] == term then Without(recent[1..], term)
    else [recent[0]] + Without(recent[1..], term)
  }

  /** `[query, ...recent.filter(item => item !== query)].slice(0, 5)`. */
  function Record(recent: seq<string>, query: string): (r: seq<string>)
    ensures 1 <= |r| <= Capacity
    ensures r[0] == query && query !in r[1..]
  {
    var rest := Without(recent, query);
    var r := Take([query] + rest, Capacity);
    assert r[1..] == rest[..|r| - 1];
    assert query !in rest;
    assert forall t :: t in rest[..|r| - 1] ==> t in rest;
    r
  }

  /** The first `n` elements, or all of them when there are fewer (JavaScript's `slice(0, n)`). */
  function Take(s: seq<string>, n: nat): (r: seq<string>)
    ensures |r| == if |s| <= n then |s| else n
    ensures r == s[..|r|]
  {
    if |s| <= n then s else s[..n]
  }

  // ---------------------------------------------------------------------
  // Filtering

  /** Filtering is order-preserving: it distributes over concatenation. */
  lemma {:induction false} WithoutAppend(a: seq<string>, b: seq<string>, term: string)
    ensures Without(a + b, term) == Without(a, term) + Without(b, term)
  {
    if a == [] {
      assert a + b == b;
    } else {
      var ab := a + b;
      assert ab[0] == a[0] && ab[1..] == a[1..] + b;
      WithoutAppend(a[1..], b, term);
      var head := if a[0] == term then [] else [a[0]];
      assert Without(ab, term) == head + Without(a[1..] + b, term);
      assert Without(a, term) == head + Without(a[1..], term);
    }
  }

  /** Removing a term that is not there changes nothing. */
  lemma {:induction false} WithoutAbsent(recent: seq<string>, term: string)
    requires term !in recent
    ensures Without(recent, term) == recent
  {
    if recent != [] {
      WithoutAbsent(recent[1..], term);
      assert [recent[0]] + recent[1..] == recent;
    }
  }

  lemma {:induction false} WithoutKeepsNoDuplicates(recent: seq<string>, term: string)
    requires NoDuplicates(recent)
    ensures NoDuplicates(Without(recent, term))
  {
    if recent != [] {
      WithoutKeepsNoDuplicates(recent[1..], term);
      assert recent[0] !in recent[1..] by {
        forall k | 0 <= k < |recent[1..]| ensures recent[1..][k] != recent[0] {
          assert recent[1..][k] == recent[k + 1];
        }
      }
      var w := Without(recent[1..], term);
      assert recent[0] !in w;
      assert forall k :: 0 <= k < |w| ==> w[k] in w;
    }
  }

  /** A term present exactly once is the only element filtering removes. */
  lemma {:induction false} WithoutPresentOnce(recent: seq<string>, term: string)
    requires NoDuplicates(recent) && term in recent
    ensures |Without(recent, term)| == |recent| - 1
  {
    if recent[0] == term {
      assert term !in recent[1..] by {
        forall k | 0 <= k < |recent[1..]| ensures recent[1..][k] != term {
          assert recent[1..][k] == recent[k + 1];
        }
      }
      WithoutAbsent(recent[1..], term);
    } else {
      WithoutPresentOnce(recent[1..], term);
    }
  }

  // ---------------------------------------------------------------------
  // Recording

  /** A list without duplicates stays without duplicates. */
  lemma RecordKeepsNoDuplicates(recent: seq<string>, query: string)
    requires NoDuplicates(recent)
    ensures NoDuplicates(Record(recent, query))
  {
    var rest := Without(recent, query);
    WithoutKeepsNoDuplicates(recent, query);
    var moved := [query] + rest;
    assert NoDuplicates(moved) by {
      forall i, j | 0 <= i < j < |moved| ensures moved[i] != moved[j] {
        if i == 0 {
          assert moved[j] == rest[j - 1] && rest[j - 1] in rest;
        } else {
          assert moved[i] == rest[i - 1] && moved[j] == rest[j - 1];
        }
      }
    }
  }

  /** Searching again for a term already in a list of at most five neither grows nor shrinks it. */
  lemma RerecordKeepsLength(recent: seq<string>, query: string)
    requires NoDuplicates(recent) && query in recent && |recent| <= Capacity
    ensures |Record(recent, query)| == |recent|
  {
    WithoutPresentOnce(recent, query);
  }

  /**
   * Move to front: the term's old copy disappears and the searches before
   * and after it keep their relative order behind it.
   */
  lemma RecordMovesToFront(before: seq<string>, query: string, after: seq<string>)
    requires query !in before && query !in after
    ensures Record(before + [query] + after, query) == Take([query] + before + after, Capacity)
  {
    WithoutSurroundedOnce(before, query, after);
    assert [query] + (before + after) == [query] + before + after;
  }

  /** Filtering a term out of the middle leaves what was around it, in order. */
  lemma WithoutSurroundedOnce(before: seq<string>, query: string, after: seq<string>)
    requires query !in before && query !in after
    ensures Without(before + [query] + after, query) == before + after
  {
    assert Without(before + [query], query) == before by {
      WithoutAppend(before, [query], query);
      WithoutAbsent(before, query);
      assert [query][0] == query && [query][1..] == [];
      assert Without([query], query) == [];
      assert before + [] == before;
    }
    WithoutAppend(before + [query], after, query);
    WithoutAbsent(after, query);
  }

  /** A new term goes in front and, once five are kept, the oldest one is evicted. */
  lemma RecordNewEvictsOldest(recent: seq<string>, query: string)
    requires query !in recent
    ensures Record(recent, query) == Take([query] + recent, Capacity)
    ensures |recent| >= Capacity ==> Record(recent, query) == [query] + recent[..Capacity - 1]
  {
    WithoutAbsent(recent, query);
    if |recent| >= Capacity {
      assert ([query] + recent)[..Capacity] == [query] + recent[..Capacity - 1];
    }
  }

  /** Searching a, b, c and then a again lists a, c, b. */
  lemma MoveToFrontExample()
    ensures Record(Record(Record(Record([], "a"), "b"), "c"), "a") == ["a", "c", "b"]
  {
    RecordNewEvictsOldest([], "a");
    RecordNewEvictsOldest(["a"], "b");
    RecordNewEvictsOldest(["b", "a"], "c");
    RecordMovesToFront(["c", "b"], "a", []);
    assert ["c", "b"] + ["a"] + [] == ["c", "b", "a"];
  }

  /** After six different searches only the last five remain, newest first. */
  lemma EvictionExample()
    ensures Record(["t5", "t4", "t3", "t2", "t1"], "t6") == ["t6", "t5", "t4", "t3", "t2"]
  {
    RecordNewEvictsOldest(["t5", "t4", "t3", "t2", "t1"], "t6");
  }
}
