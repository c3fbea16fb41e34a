/**
 * `Settings.get_key`: the cache key of a mapping of overridden options.
 *
 * A Python dict iterates its keys in insertion order; `order` is that
 * iteration order, an enumeration of the mapping's keys. `str` stands for
 * Python's `str()` of a value and `digest` for the hex MD5 digest (RFC 1321)
 * of the UTF-8 encoding of a string; both are left uninterpreted.
 */
module CacheKey {
  import opened Values
  import opened StringOrder

  /** `order` lists every key of `keys` exactly once. */
  predicate IsEnumeration(order: seq<string>, keys: set<string>)
  {
    && (forall i, j :: 0 <= i < j < |order| ==> order[i] != order[j])
    && (forall k :: k in keys ==> k in order)
    && (forall k :: k in order ==> k in keys)
  }

  /** `'%s-%s' % (key, str(value))`: the key, a hyphen, then the value's text. */
  function EntryString(key: string, value: Value, str: Value -> string): (s: string)
    ensures |s| == |key| + 1 + |str(value)|
    ensures s[..|key|] == key && s[|key|] == '-' && s[|key| + 1..] == str(value)
  {
    key + "-" + str(value)
  }

  /** `[f(x) for x in s]`. */
  function MapSeq(f: string -> string, s: seq<string>): (r: seq<string>)
    ensures |r| == |s|
    ensures forall i :: 0 <= i < |s| ==> r[i] == f(s[i])
  {
    if s == [] then [] else [f(s[0])] + MapSeq(f, s[1..])
  }

  /** The entry string of each key of `m`. */
  function EntryOf(m: map<string, Value>, str: Value -> string): string -> string
  {
    k => if k in m then EntryString(k, m[k], str) else ""
  }

  /** The list comprehension over the entries of `m`, in the order `order`. */
  function EntryStrings(m: map<string, Value>, order: seq<string>, str: Value -> string): (r: seq<string>)
    ensures |r| == |order|
    ensures forall i :: 0 <= i < |order| && order[i] in m ==> r[i] == EntryString(order[i], m[order[i]], str)
  {
    MapSeq(EntryOf(m, str), order)
  }

  /** `''.join(parts)`. */
  function Join(parts: seq<string>): (s: string)
    ensures parts == [] ==> s == ""
  {
    if parts == [] then "" else parts[0] + Join(parts[1..])
  }

  /** Joining puts no separator between parts: joining splits at any boundary. */
  lemma {:induction false} JoinAppend(a: seq<string>, b: seq<string>)
    ensures Join(a + b) == Join(a) + Join(b)
    decreases |a|
  {
    if a == [] {
      assert a + b == b;
    } else {
      assert (a + b)[1..] == a[1..] + b;
      JoinAppend(a[1..], b);
    }
  }

  /** A single part joins to itself. */
  lemma JoinOne(e: string)
    ensures Join([e]) == e
  {
    assert [e][1..] == [];
  }

  /** `Settings.get_key(settings)`; `settings == None` is Python's `None`. */
  function GetKey(settings: Option<map<string, Value>>, order: seq<string>,
                  str: Value -> string, digest: string -> string): (key: string)
    requires settings.Some? ==> IsEnumeration(order, settings.value.Keys)
    ensures !TruthyDict(settings) ==> key == "default"
  {
    if !TruthyDict(settings) then "default"
    else digest(Join(Sort(EntryStrings(settings.value, order, str))))
  }

  /** The tail of an enumeration enumerates the other keys. */
  lemma EnumerationTail(order: seq<string>, keys: set<string>)
    requires IsEnumeration(order, keys) && order != []
    ensures IsEnumeration(order[1..], keys - {order[0]})
  {
    var rest := order[1..];
    forall k | k in keys - {order[0]} ensures k in rest {
      var i :| 0 <= i < |order| && order[i] == k;
      assert rest[i - 1] == k;
    }
    forall k | k in rest ensures k in keys - {order[0]} {
      var i :| 0 <= i < |rest| && rest[i] == k;
      assert order[i + 1] == k;
    }
  }

  /** Taking one key out of `keys` takes it out of the keys `f` maps to `y`. */
  lemma HitsSplit(f: string -> string, keys: set<string>, k0: string, y: string)
    requires k0 in keys
    ensures |set k | k in keys && f(k) == y|
            == |set k | k in keys - {k0} && f(k) == y| + (if f(k0) == y then 1 else 0)
  {
    var hits := set k | k in keys && f(k) == y;
    var restHits := set k | k in keys - {k0} && f(k) == y;
    if f(k0) == y {
      assert hits == restHits + {k0};
    } else {
      assert hits == restHits;
    }
  }

  /**
   * Over an enumeration of `keys`, `f` produces each string as often as
   * there are keys that `f` maps to it: the count does not depend on the
   * order.
   */
  lemma {:induction false} MapSeqCount(f: string -> string, order: seq<string>, keys: set<string>, y: string)
    requires IsEnumeration(order, keys)
    ensures multiset(MapSeq(f, order))[y] == |set k | k in keys && f(k) == y|
    decreases |order|
  {
    if order == [] {
      assert (set k | k in keys && f(k) == y) == {};
    } else {
      var k0, rest := order[0], order[1..];
      EnumerationTail(order, keys);
      MapSeqCount(f, rest, keys - {k0}, y);
      HitsSplit(f, keys, k0, y);
      assert MapSeq(f, order) == [f(k0)] + MapSeq(f, rest);
    }
  }

  /** Two enumerations of one key set give permutations of the same entries. */
  lemma MapSeqPermutation(f: string -> string, o1: seq<string>, o2: seq<string>, keys: set<string>)
    requires IsEnumeration(o1, keys) && IsEnumeration(o2, keys)
    ensures multiset(MapSeq(f, o1)) == multiset(MapSeq(f, o2))
  {
    forall y ensures multiset(MapSeq(f, o1))[y] == multiset(MapSeq(f, o2))[y] {
      MapSeqCount(f, o1, keys, y);
      MapSeqCount(f, o2, keys, y);
    }
  }

  /**
   * The key of a non-empty mapping is the digest of the concatenation of
   * ANY ascending arrangement of its entry strings.
   */
  lemma GetKeyIsDigestOfSortedEntries(m: map<string, Value>, order: seq<string>,
                                      str: Value -> string, digest: string -> string,
                                      sorted: seq<string>)
    requires m != map[] && IsEnumeration(order, m.Keys)
    requires Sorted(sorted) && multiset(sorted) == multiset(EntryStrings(m, order, str))
    ensures GetKey(Some(m), order, str, digest) == digest(Join(sorted))
  {
    SortedUnique(Sort(EntryStrings(m, order, str)), sorted);
  }

  /** The key does not depend on the order in which the mapping iterates. */
  lemma GetKeyOrderIndependent(m: map<string, Value>, o1: seq<string>, o2: seq<string>,
                               str: Value -> string, digest: string -> string)
    requires IsEnumeration(o1, m.Keys) && IsEnumeration(o2, m.Keys)
    ensures GetKey(Some(m), o1, str, digest) == GetKey(Some(m), o2, str, digest)
  {
    if m != map[] {
      MapSeqPermutation(EntryOf(m, str), o1, o2, m.Keys);
      SortPermutationInvariant(EntryStrings(m, o1, str), EntryStrings(m, o2, str));
    }
  }

  /** `str()` of a Python string is the string itself. */
  function TextStr(v: Value): string
  {
    if v.Text? then v.chars else ""
  }

  lemma JoinTwo(e1: string, e2: string)
    ensures Join([e1, e2]) == e1 + e2
  {
    assert [e1, e2] == [e1] + [e2];
    JoinAppend([e1], [e2]);
    JoinOne(e1);
    JoinOne(e2);
  }

  lemma EntryStringsTwo(m: map<string, Value>, k1: string, k2: string, str: Value -> string)
    requires k1 in m && k2 in m
    ensures EntryStrings(m, [k1, k2], str) == [EntryString(k1, m[k1], str), EntryString(k2, m[k2], str)]
  {
    var f := EntryOf(m, str);
    assert [k1, k2][1..] == [k2];
    assert MapSeq(f, [k2]) == [f(k2)] + MapSeq(f, []);
  }

  /** The key of a one-option override is the digest of its entry string. */
  lemma OneEntryKey(k: string, v: Value, str: Value -> string, digest: string -> string)
    ensures GetKey(Some(map[k := v]), [k], str, digest) == digest(EntryString(k, v, str))
  {
    var m := map[k := v];
    assert k in m;
    var e := EntryString(k, v, str);
    assert EntryStrings(m, [k], str) == [e] by {
      assert EntryOf(m, str)(k) == e;
      assert MapSeq(EntryOf(m, str), [k]) == [e] + MapSeq(EntryOf(m, str), []);
    }
    assert Sort([e]) == [e] by {
      assert [e][1..] == [];
      assert Sort([e]) == Insert(e, Sort([]));
    }
    JoinOne(e);
  }

  /**
   * The key of a two-option override is the digest of its two entry strings,
   * the smaller first, whichever order the dict iterates in.
   */
  lemma TwoEntryKey(k1: string, v1: Value, k2: string, v2: Value, str: Value -> string, digest: string -> string)
    requires k1 != k2
    requires LessEq(EntryString(k1, v1, str), EntryString(k2, v2, str))
    ensures GetKey(Some(map[k1 := v1, k2 := v2]), [k1, k2], str, digest)
            == digest(EntryString(k1, v1, str) + EntryString(k2, v2, str))
    ensures GetKey(Some(map[k1 := v1, k2 := v2]), [k2, k1], str, digest)
            == digest(EntryString(k1, v1, str) + EntryString(k2, v2, str))
  {
    var m := map[k1 := v1, k2 := v2];
    assert k1 in m && k2 in m && m[k1] == v1 && m[k2] == v2;
    var e1, e2 := EntryString(k1, v1, str), EntryString(k2, v2, str);
    EntryStringsTwo(m, k1, k2, str);
    assert Sorted([e1, e2]);
    GetKeyIsDigestOfSortedEntries(m, [k1, k2], str, digest, [e1, e2]);
    JoinTwo(e1, e2);
    GetKeyOrderIndependent(m, [k1, k2], [k2, k1], str, digest);
  }

  /**
   * The entry strings are joined without a separator, so two different
   * override mappings can share a key whatever the digest: for instance
   * {"A": "xB-y"} and {"A": "x", "B": "y"} both hash "A-xB-y".
   */
  lemma GetKeyCollides(a: string, b: string, x: string, y: string, digest: string -> string)
    requires a != b
    requires LessEq(a + "-" + x, b + "-" + y)
    ensures var m1 := map[a := Text(x + b + "-" + y)];
            var m2 := map[a := Text(x), b := Text(y)];
            m1 != m2 && GetKey(Some(m1), [a], TextStr, digest) == GetKey(Some(m2), [a, b], TextStr, digest)
  {
    var m1 := map[a := Text(x + b + "-" + y)];
    var m2 := map[a := Text(x), b := Text(y)];
    assert m1 != m2 by {
      assert b in m2 && b !in m1;
    }
    var hashed := (a + "-" + x) + (b + "-" + y);
    assert GetKey(Some(m1), [a], TextStr, digest) == digest(hashed) by {
      OneEntryKey(a, Text(x + b + "-" + y), TextStr, digest);
      assert EntryString(a, Text(x + b + "-" + y), TextStr) == hashed;
    }
    assert GetKey(Some(m2), [a, b], TextStr, digest) == digest(hashed) by {
      TwoEntryKey(a, Text(x), b, Text(y), TextStr, digest);
    }
  }
}
