/** The hash index and the ordered index (services/node-agent/src/storage/hash_index.rs, btree_index.rs). */
module Indexes {
  import opened Prelude
  import opened Bytes
  import opened LogFormat

  datatype RecordLocation = RecordLocation(pageId: nat, offset: nat, lsn: u64)

  datatype IndexEntry = IndexEntry(key: Key, location: RecordLocation)

  /** Byte-wise lexicographic order, the order of Rust strings. */
  predicate Less(a: seq<byte>, b: seq<byte>) {
    b != [] && (a == [] || a[0] < b[0] || (a[0] == b[0] && Less(a[1..], b[1..])))
  }

  predicate LessOrEqual(a: seq<byte>, b: seq<byte>) {
    a == b || Less(a, b)
  }

  /** At byte `i` the two first differ, and `a` has the smaller byte. */
  predicate SmallerAt(a: seq<byte>, b: seq<byte>, i: int) {
    0 <= i < |a| && i < |b| && a[..i] == b[..i] && a[i] < b[i]
  }

  /** The order of Rust strings: a proper prefix comes first, and otherwise the first byte that differs decides. */
  lemma {:induction false} LessExactly(a: seq<byte>, b: seq<byte>)
    ensures Less(a, b) <==> (|a| < |b| && a == b[..|a|]) || exists i :: SmallerAt(a, b, i)
  {
    if a != [] && b != [] && a[0] == b[0] {
      LessExactly(a[1..], b[1..]);
      assert a == [a[0]] + a[1..] && b == [b[0]] + b[1..];
      assert |a| < |b| ==> b[..|a|] == [b[0]] + b[1..][..|a| - 1];
      forall i | 1 <= i <= |a| && i <= |b|
        ensures a[..i] == [a[0]] + a[1..][..i - 1] && b[..i] == [b[0]] + b[1..][..i - 1]
      {
      }
      forall i ensures SmallerAt(a, b, i) <==> SmallerAt(a[1..], b[1..], i - 1) {
      }
      if i :| SmallerAt(a[1..], b[1..], i) {
        assert SmallerAt(a, b, i + 1);
      }
    } else if a != [] && b != [] {
      assert a[0] < b[0] ==> SmallerAt(a, b, 0);
      forall i | SmallerAt(a, b, i) ensures i == 0 {
      }
    }
  }

  lemma {:induction false} LessIrreflexive(a: seq<byte>)
    ensures !Less(a, a)
  {
    if a != [] { LessIrreflexive(a[1..]); }
  }

  lemma {:induction false} LessTransitive(a: seq<byte>, b: seq<byte>, c: seq<byte>)
    requires Less(a, b) && Less(b, c)
    ensures Less(a, c)
  {
    if a != [] && a[0] == b[0] == c[0] { LessTransitive(a[1..], b[1..], c[1..]); }
  }

  lemma {:induction false} LessTotal(a: seq<byte>, b: seq<byte>)
    ensures Less(a, b) || a == b || Less(b, a)
  {
    if a != [] && b != [] && a[0] == b[0] {
      LessTotal(a[1..], b[1..]);
      assert a == [a[0]] + a[1..] && b == [b[0]] + b[1..];
    }
  }

  ghost predicate StrictlyIncreasing(s: seq<IndexEntry>) {
    forall i, j :: 0 <= i < j < |s| ==> Less(s[i].key, s[j].key)
  }

  /** `s` lists exactly the entries of `m` with keys from `low` to `high`, in key order. */
  ghost predicate IsRange(m: map<Key, RecordLocation>, low: Key, high: Key, s: seq<IndexEntry>) {
    && StrictlyIncreasing(s)
    && forall e :: e in s <==>
         e.key in m && m[e.key] == e.location && LessOrEqual(low, e.key) && LessOrEqual(e.key, high)
  }

  /** There is one such list, so a scan's result depends on the index's contents alone. */
  lemma {:induction false} RangeIsUnique(
    m: map<Key, RecordLocation>, low: Key, high: Key, s: seq<IndexEntry>, t: seq<IndexEntry>)
    requires IsRange(m, low, high, s) && IsRange(m, low, high, t)
    ensures s == t
  {
    SameIncreasing(s, t);
  }

  lemma HeadIsNew(s: seq<IndexEntry>)
    requires s != [] && StrictlyIncreasing(s)
    ensures s[0] !in s[1..]
  {
    if s[0] in s[1..] {
      var i :| 0 < i < |s| && s[i] == s[0];
      LessIrreflexive(s[0].key);
      assert false;
    }
  }

  lemma {:induction false} SameIncreasing(s: seq<IndexEntry>, t: seq<IndexEntry>)
    requires StrictlyIncreasing(s) && StrictlyIncreasing(t)
    requires forall e :: e in s <==> e in t
    ensures s == t
  {
    assert (s != [] ==> s[0] in s) && (t != [] ==> t[0] in t);
    if s != [] && t != [] {
      if s[0] != t[0] {
        assert s[0] in t && t[0] in s;
        var i :| 0 < i < |s| && s[i] == t[0];
        var j :| 0 < j < |t| && t[j] == s[0];
        LessTransitive(s[0].key, t[0].key, s[0].key);
        LessIrreflexive(s[0].key);
        assert false;
      }
      HeadIsNew(s);
      HeadIsNew(t);
      assert forall e :: e in s <==> e == s[0] || e in s[1..];
      assert forall e :: e in t <==> e == t[0] || e in t[1..];
      SameIncreasing(s[1..], t[1..]);
    }
  }

  class HashIndex {
    var index: map<Key, RecordLocation>

    constructor ()
      ensures index == map[]
    {
      index := map[];
    }

    method Insert(key: Key, pageId: nat, offset: nat, lsn: u64)
      modifies this
      ensures index == old(index)[key := RecordLocation(pageId, offset, lsn)]
    {
      index := index[key := RecordLocation(pageId, offset, lsn)];
    }

    method Remove(key: Key) returns (removed: Option<RecordLocation>)
      modifies this
      ensures index == old(index) - {key}
      ensures removed == if key in old(index) then Some(old(index)[key]) else None
    {
      removed := if key in index then Some(index[key]) else None;
      index := index - {key};
    }

    method Clear()
      modifies this
      ensures index == map[]
    {
      index := map[];
    }
  }

  class BTreeIndex {
    var tree: map<Key, RecordLocation>

    constructor ()
      ensures tree == map[]
    {
      tree := map[];
    }

    method Insert(key: Key, pageId: nat, offset: nat, lsn: u64)
      modifies this
      ensures tree == old(tree)[key := RecordLocation(pageId, offset, lsn)]
    {
      tree := tree[key := RecordLocation(pageId, offset, lsn)];
    }

    method Remove(key: Key) returns (removed: Option<RecordLocation>)
      modifies this
      ensures tree == old(tree) - {key}
      ensures removed == if key in old(tree) then Some(old(tree)[key]) else None
    {
      removed := if key in tree then Some(tree[key]) else None;
      tree := tree - {key};
    }

    /** An ordered walk from `low` to `high`, both inclusive. The ordered map rejects a range that ends before it
        starts. */
    method RangeScan(low: Key, high: Key) returns (entries: seq<IndexEntry>)
      requires LessOrEqual(low, high)
      ensures IsRange(tree, low, high, entries)
    {
      var rest := set k | k in tree && LessOrEqual(low, k) && LessOrEqual(k, high);
      ghost var wanted := rest;
      entries := [];
      while rest != {}
        invariant rest <= wanted
        invariant StrictlyIncreasing(entries)
        invariant forall e :: e in entries <==> e.key in wanted - rest && tree[e.key] == e.location
        invariant forall i, k :: 0 <= i < |entries| && k in rest ==> Less(entries[i].key, k)
        decreases rest
      {
        var k := LeastOf(rest);
        rest := rest - {k};
        var e := IndexEntry(k, tree[k]);
        ghost var before := entries;
        entries := entries + [e];
        assert forall x :: x in entries <==> x in before || x == e;
      }
    }
  }

  method LeastOf(keys: set<Key>) returns (least: Key)
    requires keys != {}
    ensures least in keys && forall k :: k in keys && k != least ==> Less(least, k)
  {
    var rest := keys;
    least :| least in rest;
    rest := rest - {least};
    while rest != {}
      invariant least in keys && rest <= keys
      invariant forall k :: k in keys - rest && k != least ==> Less(least, k)
      decreases rest
    {
      var k :| k in rest;
      ghost var before := least;
      rest := rest - {k};
      LessTotal(least, k);
      if Less(k, least) {
        forall x | x in keys - rest && x != k ensures Less(k, x) {
          if x != least { LessTransitive(k, least, x); }
        }
        least := k;
      }
    }
  }
}
