/**
 * test/support/memory_event_store.js: the in-memory event store, an
 * append-only list of `{sequence, raw}` with a query for what came after a
 * sequence number.
 */
module MemoryEventStore {
  import opened Wrappers

  datatype Entry<T> = Entry(sequence: Option<int>, raw: T)

  /** `sequence > s` in JavaScript, where a null sequence compares as 0. */
  predicate After(sequence: Option<int>, s: int) {
    sequence.GetOr(0) > s
  }

  /** `a` is `b` with some elements left out, the others kept in order. */
  predicate IsSubsequence<T(==)>(a: seq<T>, b: seq<T>)
    decreases |b|
  {
    if b == [] then a == []
    else IsSubsequence(a, b[1..]) || (a != [] && a[0] == b[0] && IsSubsequence(a[1..], b[1..]))
  }

  /** The entries whose sequence is after `s`, in insertion order. */
  function Newer<T(==)>(entries: seq<Entry<T>>, s: int): (r: seq<Entry<T>>)
    ensures IsSubsequence(r, entries)
    ensures forall i :: 0 <= i < |r| ==> After(r[i].sequence, s)
    ensures forall i :: 0 <= i < |entries| && After(entries[i].sequence, s) ==> entries[i] in r
  {
    if entries == [] then []
    else
      var rest := Newer(entries[1..], s);
      assert forall i :: 1 <= i < |entries| ==> entries[i] == entries[1..][i - 1];
      if After(entries[0].sequence, s) then [entries[0]] + rest else rest
  }

  /**
   * The filter keeps every copy of an entry after `s` and no copy of any
   * other: an event stored twice is returned twice.
   */
  lemma {:induction false} NewerCounts<T>(entries: seq<Entry<T>>, s: int)
    ensures forall e :: multiset(Newer(entries, s))[e] == if After(e.sequence, s) then multiset(entries)[e] else 0
  {
    if entries != [] {
      NewerCounts(entries[1..], s);
      assert entries == [entries[0]] + entries[1..];
    }
  }

  function Raws<T>(entries: seq<Entry<T>>): (r: seq<T>)
    ensures |r| == |entries| && forall i :: 0 <= i < |entries| ==> r[i] == entries[i].raw
  {
    if entries == [] then [] else [entries[0].raw] + Raws(entries[1..])
  }

  /** `get(s)`: the raws of the entries whose sequence is after `s`, in insertion order. */
  function Query<T(==)>(entries: seq<Entry<T>>, s: int): seq<T> {
    Raws(Newer(entries, s))
  }

  lemma {:induction false} RawsOfSubsequence<T>(a: seq<Entry<T>>, b: seq<Entry<T>>)
    requires IsSubsequence(a, b)
    ensures IsSubsequence(Raws(a), Raws(b))
  {
    if b != [] {
      assert Raws(b)[1..] == Raws(b[1..]);
      if IsSubsequence(a, b[1..]) {
        RawsOfSubsequence(a, b[1..]);
      } else {
        RawsOfSubsequence(a[1..], b[1..]);
        assert Raws(a)[1..] == Raws(a[1..]);
      }
    }
  }

  /** What `get` returns is taken from the stored raws, in insertion order. */
  lemma QueryInOrder<T>(entries: seq<Entry<T>>, s: int)
    ensures IsSubsequence(Query(entries, s), Raws(entries))
  {
    RawsOfSubsequence(Newer(entries, s), entries);
  }

  /** Inserting one entry: `get(s)` gains its raw at the end exactly when its sequence is after `s`. */
  lemma {:induction false} QueryAfterInsert<T>(entries: seq<Entry<T>>, e: Entry<T>, s: int)
    ensures Query(entries + [e], s) == Query(entries, s) + (if After(e.sequence, s) then [e.raw] else [])
  {
    NewerAfterInsert(entries, e, s);
    RawsAppend(Newer(entries, s), if After(e.sequence, s) then [e] else []);
  }

  lemma {:induction false} NewerAfterInsert<T>(entries: seq<Entry<T>>, e: Entry<T>, s: int)
    ensures Newer(entries + [e], s) == Newer(entries, s) + (if After(e.sequence, s) then [e] else [])
  {
    if entries == [] {
      assert [] + [e] == [e];
    } else {
      assert (entries + [e])[1..] == entries[1..] + [e];
      NewerAfterInsert(entries[1..], e, s);
    }
  }

  lemma {:induction false} RawsAppend<T>(a: seq<Entry<T>>, b: seq<Entry<T>>)
    ensures Raws(a + b) == Raws(a) + Raws(b)
  {
  }

  lemma {:induction false} SubsequenceMembers<T>(a: seq<T>, b: seq<T>, x: T)
    requires IsSubsequence(a, b) && x in a
    ensures x in b
    decreases |b|
  {
    if b != [] {
      if IsSubsequence(a, b[1..]) {
        SubsequenceMembers(a, b[1..], x);
      } else if x != a[0] {
        SubsequenceMembers(a[1..], b[1..], x);
      }
    }
  }

  /**
   * `get(s)` holds the raw of every entry whose sequence is after `s`, and
   * nothing that is not the raw of such an entry.
   */
  lemma QueryExactly<T>(entries: seq<Entry<T>>, s: int)
    ensures forall i :: 0 <= i < |entries| && After(entries[i].sequence, s) ==> entries[i].raw in Query(entries, s)
    ensures forall x :: x in Query(entries, s) ==>
      exists i :: 0 <= i < |entries| && After(entries[i].sequence, s) && entries[i].raw == x
  {
    var r := Newer(entries, s);
    forall i | 0 <= i < |entries| && After(entries[i].sequence, s)
      ensures entries[i].raw in Query(entries, s)
    {
      var j :| 0 <= j < |r| && r[j] == entries[i];
      assert Query(entries, s)[j] == entries[i].raw;
    }
    forall x | x in Query(entries, s)
      ensures exists i :: 0 <= i < |entries| && After(entries[i].sequence, s) && entries[i].raw == x
    {
      var j :| 0 <= j < |r| && Raws(r)[j] == x;
      SubsequenceMembers(r, entries, r[j]);
      var i :| 0 <= i < |entries| && entries[i] == r[j];
    }
  }

  /** A later bound selects fewer entries: `get(s2)` is a subsequence of `get(s1)` when `s1 <= s2`. */
  lemma {:induction false} QueryShrinks<T>(entries: seq<Entry<T>>, s1: int, s2: int)
    requires s1 <= s2
    ensures IsSubsequence(Query(entries, s2), Query(entries, s1))
  {
    NewerShrinks(entries, s1, s2);
    RawsOfSubsequence(Newer(entries, s2), Newer(entries, s1));
  }

  lemma {:induction false} NewerShrinks<T>(entries: seq<Entry<T>>, s1: int, s2: int)
    requires s1 <= s2
    ensures IsSubsequence(Newer(entries, s2), Newer(entries, s1))
  {
    if entries != [] {
      NewerShrinks(entries[1..], s1, s2);
      var e := entries[0];
      var r1, r2 := Newer(entries[1..], s1), Newer(entries[1..], s2);
      if After(e.sequence, s2) {
        assert ([e] + r2)[1..] == r2 && ([e] + r1)[1..] == r1;
      } else if After(e.sequence, s1) {
        assert ([e] + r1)[1..] == r1;
      }
    }
  }

  /** The store object: `getInstance()` gives an empty one. */
  class Store<T(==)> {
    var entries: seq<Entry<T>>

    constructor ()
      ensures entries == []
    {
      entries := [];
    }

    /** `insert(sequence, raw)`: append one entry, the earlier ones unchanged. */
    method Insert(sequence: Option<int>, raw: T)
      modifies this
      ensures entries == old(entries) + [Entry(sequence, raw)]
    {
      entries := entries + [Entry(sequence, raw)];
    }

    /** `get(s)`: a query that reads the list and leaves it as it is. */
    function Get(s: int): (r: seq<T>)
      reads this
      ensures IsSubsequence(r, Raws(entries))
      ensures forall i :: 0 <= i < |entries| && After(entries[i].sequence, s) ==> entries[i].raw in r
      ensures forall x :: x in r ==> exists i :: 0 <= i < |entries| && After(entries[i].sequence, s) && entries[i].raw == x
      ensures r == Query(entries, s)
    {
      QueryInOrder(entries, s);
      QueryExactly(entries, s);
      Query(entries, s)
    }
  }
}
