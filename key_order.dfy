/** Byte-wise ordering and prefix tests on keys, as Go compares strings
    (`r.rows[i].key < r.rows[j].key`) and as BoltDB orders a bucket's keys. */
module KeyOrder {

  /** Strict lexicographic order. Go compares strings byte by byte; over valid
      UTF-8 text that is the order of code points, which is what `char` gives. */
  predicate Less(a: string, b: string)
  {
    if |a| == 0 then |b| > 0
    else |b| > 0 && (a[0] < b[0] || (a[0] == b[0] && Less(a[1..], b[1..])))
  }

  /** `bytes.HasPrefix(s, prefix)`: `prefix` is a leading part of `s`. */
  predicate HasPrefix(s: string, prefix: string)
  {
    prefix <= s
  }

  lemma {:induction false} Irreflexive(a: string)
    ensures !Less(a, a)
  {
    if |a| > 0 {
      Irreflexive(a[1..]);
    }
  }

  lemma {:induction false} Asymmetric(a: string, b: string)
    ensures Less(a, b) ==> !Less(b, a)
  {
    if |a| > 0 && |b| > 0 && a[0] == b[0] {
      Asymmetric(a[1..], b[1..]);
    }
  }

  lemma {:induction false} Transitive(a: string, b: string, c: string)
    requires Less(a, b) && Less(b, c)
    ensures Less(a, c)
  {
    if |a| > 0 && a[0] == b[0] && b[0] == c[0] {
      Transitive(a[1..], b[1..], c[1..]);
    }
  }

  /** Any two distinct keys are ordered one way or the other. */
  lemma {:induction false} Total(a: string, b: string)
    ensures a == b || Less(a, b) || Less(b, a)
  {
    if |a| > 0 && |b| > 0 && a[0] == b[0] {
      Total(a[1..], b[1..]);
      if a[1..] == b[1..] {
        assert a == [a[0]] + a[1..] && b == [b[0]] + b[1..];
      }
    }
  }

  /** "not after" is transitive: the relation the sort establishes. */
  lemma NotAfterTransitive(a: string, b: string, c: string)
    requires !Less(b, a) && !Less(c, b)
    ensures !Less(c, a)
  {
    Total(a, b);
    Total(b, c);
    if Less(c, a) {
      if a == b {
        Asymmetric(c, b);
      } else if b == c {
        Asymmetric(a, c);
      } else {
        Transitive(a, b, c);
        Asymmetric(a, c);
      }
    }
  }

  /** A key that starts with `p` is never ordered before `p`. */
  lemma {:induction false} PrefixNotBefore(s: string, p: string)
    requires HasPrefix(s, p)
    ensures !Less(s, p)
  {
    if |p| > 0 {
      PrefixNotBefore(s[1..], p[1..]);
    }
  }

  /** The keys that start with `p` form an interval: a key ordered between `p`
      and a key that starts with `p` also starts with `p`. */
  lemma {:induction false} PrefixInterval(p: string, x: string, y: string)
    requires HasPrefix(y, p) && !Less(x, p) && !Less(y, x)
    ensures HasPrefix(x, p)
  {
    if |p| > 0 {
      assert |x| > 0;
      assert x[0] == p[0];
      PrefixInterval(p[1..], x[1..], y[1..]);
    }
  }

  /** Every element is ordered strictly before every later one. */
  ghost predicate StrictlyAscending(keys: seq<string>)
  {
    forall i, j :: 0 <= i < j < |keys| ==> Less(keys[i], keys[j])
  }

  /** Two strictly ascending sequences with the same elements are equal: the
      ascending enumeration of a set of keys is unique. */
  lemma {:induction false} AscendingUnique(a: seq<string>, b: seq<string>)
    requires StrictlyAscending(a) && StrictlyAscending(b)
    requires forall x :: x in a <==> x in b
    ensures a == b
  {
    assert b != [] ==> b[0] in a by {
      if b != [] {
        assert b[0] in b;
      }
    }
    if a != [] {
      assert a[0] in b;
      assert a[0] == b[0] by {
        var i :| 0 <= i < |a| && a[i] == b[0];
        var j :| 0 <= j < |b| && b[j] == a[0];
        if i > 0 && j > 0 {
          Transitive(a[0], a[i], b[j]);
          Irreflexive(a[0]);
        }
      }
      forall x
        ensures x in a[1..] <==> x in b[1..]
      {
        if x in a[1..] {
          var i :| 0 <= i < |a[1..]| && a[1..][i] == x;
          Irreflexive(a[0]);
          assert x != b[0];
          assert x in b;
          var j :| 0 <= j < |b| && b[j] == x;
          assert b[1..][j - 1] == x;
        }
        if x in b[1..] {
          var j :| 0 <= j < |b[1..]| && b[1..][j] == x;
          Irreflexive(b[0]);
          assert x != a[0];
          assert x in a;
          var i :| 0 <= i < |a| && a[i] == x;
          assert a[1..][i - 1] == x;
        }
      }
      AscendingUnique(a[1..], b[1..]);
      assert a == [a[0]] + a[1..] && b == [b[0]] + b[1..];
    }
  }
}
