/**
 * The order of `ORDER BY id` (internals/storage/postgreStorage.go:76): strings compared
 * character by character, a proper prefix before its extensions.  The sorted key
 * sequence of a table is built by repeatedly taking the least remaining key.
 */
module StringOrder {

  /** Strict lexicographic order on strings. */
  predicate Less(a: string, b: string)
    decreases |a|
  {
    if |a| == 0 then |b| > 0
    else |b| > 0 && (a[0] < b[0] || (a[0] == b[0] && Less(a[1..], b[1..])))
  }

  lemma {:induction false} LessIrreflexive(a: string)
    ensures !Less(a, a)
    decreases |a|
  {
    if |a| > 0 { LessIrreflexive(a[1..]); }
  }

  lemma {:induction false} LessAsymmetric(a: string, b: string)
    ensures Less(a, b) ==> !Less(b, a)
    decreases |a|
  {
    if |a| > 0 && |b| > 0 && a[0] == b[0] { LessAsymmetric(a[1..], b[1..]); }
  }

  lemma {:induction false} LessTransitive(a: string, b: string, c: string)
    requires Less(a, b) && Less(b, c)
    ensures Less(a, c)
    decreases |a|
  {
    if |a| > 0 && a[0] == b[0] && b[0] == c[0] { LessTransitive(a[1..], b[1..], c[1..]); }
  }

  /** Any two distinct strings are ordered one way or the other. */
  lemma {:induction false} LessTotal(a: string, b: string)
    requires a != b
    ensures Less(a, b) || Less(b, a)
    decreases |a|
  {
    if |a| > 0 && |b| > 0 && a[0] == b[0] {
      assert a == [a[0]] + a[1..] && b == [b[0]] + b[1..];
      LessTotal(a[1..], b[1..]);
    }
  }

  /** `m` is the least element of `keys`. */
  predicate IsLeast(m: string, keys: set<string>)
  {
    m in keys && forall k :: k in keys && k != m ==> Less(m, k)
  }

  lemma {:induction false} LeastExists(keys: set<string>)
    requires keys != {}
    ensures exists m :: IsLeast(m, keys)
    decreases |keys|
  {
    var x :| x in keys;
    if keys == {x} {
      assert IsLeast(x, keys);
    } else {
      LeastExists(keys - {x});
      var m :| IsLeast(m, keys - {x});
      if Less(x, m) {
        forall k | k in keys && k != x ensures Less(x, k) {
          if k != m { LessTransitive(x, m, k); }
        }
        assert IsLeast(x, keys);
      } else {
        LessTotal(x, m);
        assert IsLeast(m, keys);
      }
    }
  }

  lemma LeastUnique(keys: set<string>)
    ensures forall m, m' :: IsLeast(m, keys) && IsLeast(m', keys) ==> m == m'
  {
    forall m, m' | IsLeast(m, keys) && IsLeast(m', keys) ensures m == m' {
      if m != m' { LessAsymmetric(m, m'); }
    }
  }

  /** The least key of a non-empty key set. */
  function MinKey(keys: set<string>): (m: string)
    requires keys != {}
    ensures m in keys && forall k :: k in keys && k != m ==> Less(m, k)
  {
    LeastExists(keys);
    LeastUnique(keys);
    var m :| IsLeast(m, keys);
    m
  }

  /** Strictly ascending: sorted and without duplicates. */
  predicate StrictlyAscending(s: seq<string>)
  {
    forall i, j :: 0 <= i < j < |s| ==> Less(s[i], s[j])
  }

  /** The keys of a set in ascending order, each exactly once. */
  function SortedKeys(keys: set<string>): (r: seq<string>)
    ensures |r| == |keys|
    ensures forall k :: k in r <==> k in keys
    ensures StrictlyAscending(r)
    decreases |keys|
  {
    if keys == {} then []
    else
      var m := MinKey(keys);
      [m] + SortedKeys(keys - {m})
  }

  /** The head of a strictly ascending sequence of exactly `keys` is their least key. */
  lemma AscendingHeadIsLeast(keys: set<string>, s: seq<string>)
    requires s != [] && StrictlyAscending(s)
    requires forall k :: k in s <==> k in keys
    ensures IsLeast(s[0], keys)
  {
    forall k | k in keys && k != s[0] ensures Less(s[0], k) {
      var j :| 0 <= j < |s| && s[j] == k;
    }
  }

  /** The tail of a strictly ascending sequence holds everything but its head. */
  lemma AscendingTail(keys: set<string>, s: seq<string>)
    requires s != [] && StrictlyAscending(s)
    requires forall k :: k in s <==> k in keys
    ensures StrictlyAscending(s[1..])
    ensures forall k :: k in s[1..] <==> k in keys - {s[0]}
  {
    forall k ensures k in s[1..] <==> k in keys - {s[0]} {
      if k in s[1..] {
        var j :| 1 <= j < |s| && s[j] == k;
        LessIrreflexive(s[0]);
      }
      if k in keys - {s[0]} {
        var j :| 0 <= j < |s| && s[j] == k;
        assert j != 0 && s[1..][j - 1] == k;
      }
    }
  }

  /** A strictly ascending sequence holding exactly the given keys is their SortedKeys. */
  lemma {:induction false} SortedKeysUnique(keys: set<string>, s: seq<string>)
    requires StrictlyAscending(s)
    requires forall k :: k in s <==> k in keys
    ensures s == SortedKeys(keys)
    decreases |s|
  {
    if s == [] {
      assert keys == {};
    } else {
      AscendingHeadIsLeast(keys, s);
      LeastUnique(keys);
      var m := MinKey(keys);
      assert s[0] == m;
      AscendingTail(keys, s);
      SortedKeysUnique(keys - {m}, s[1..]);
      assert s == [m] + s[1..];
    }
  }
}
