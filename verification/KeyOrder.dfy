/**
 * The ascending key order in which a QMap<QString, T> is iterated: lexicographic
 * on the characters, a proper prefix first.
 */
module KeyOrder {

  predicate Below(a: string, b: string) {
    b != [] && (a == [] || a[0] < b[0] || (a[0] == b[0] && Below(a[1..], b[1..])))
  }

  lemma {:induction false} BelowTotal(a: string, b: string)
    ensures Below(a, b) || a == b || Below(b, a)
    ensures !(Below(a, b) && Below(b, a)) && !Below(a, a)
  {
    if a != [] && b != [] {
      BelowTotal(a[1..], b[1..]);
      BelowTotal(a[1..], a[1..]);
      if a[0] == b[0] && a[1..] == b[1..] {
        assert a == [a[0]] + a[1..] == b;
      }
    } else if a != [] {
      BelowTotal(a[1..], a[1..]);
    }
  }

  lemma {:induction false} BelowTransitive(a: string, b: string, c: string)
    requires Below(a, b) && Below(b, c)
    ensures Below(a, c)
  {
    if a != [] && a[0] == b[0] == c[0] {
      BelowTransitive(a[1..], b[1..], c[1..]);
    }
  }

  ghost predicate Least(k: string, keys: set<string>) {
    k in keys && forall o :: o in keys && o != k ==> Below(k, o)
  }

  lemma LeastExists(keys: set<string>) returns (k: string)
    requires keys != {}
    ensures Least(k, keys)
    decreases |keys|
  {
    k :| k in keys;
    var rest := keys - {k};
    if rest != {} {
      var l := LeastExists(rest);
      BelowTotal(k, l);
      if Below(l, k) {
        k := l;
      } else {
        forall o | o in keys && o != k ensures Below(k, o) {
          if o != l { BelowTransitive(k, l, o); }
        }
      }
    }
  }

  predicate Ascends(s: seq<string>) {
    forall i, j :: 0 <= i < j < |s| ==> Below(s[i], s[j])
  }

  /** Visits a map's keys the way a QMap does: every key once, ascending. */
  method KeysAscending(keys: set<string>) returns (s: seq<string>)
    ensures Ascends(s)
    ensures forall k :: k in keys <==> k in s
  {
    s := [];
    var rest := keys;
    while rest != {}
      invariant rest <= keys
      invariant Ascends(s)
      invariant forall k :: k in keys <==> k in rest || k in s
      invariant forall i, o :: 0 <= i < |s| && o in rest ==> Below(s[i], o)
      decreases |rest|
    {
      ghost var l := LeastExists(rest);
      var k :| k in rest && forall o :: o in rest && o != k ==> Below(k, o);
      s := s + [k];
      rest := rest - {k};
    }
  }

  /** An ascending sequence is determined by its elements. */
  lemma {:induction false} AscendingUnique(a: seq<string>, b: seq<string>)
    requires Ascends(a) && Ascends(b)
    requires forall k :: k in a <==> k in b
    ensures a == b
  {
    assert b != [] ==> b[0] in b;
    if a == [] {
    } else {
      assert a[0] in b && (b != [] ==> b[0] in a);
      BelowTotal(a[0], b[0]);
      var i :| 0 <= i < |b| && b[i] == a[0];
      var j :| 0 <= j < |a| && a[j] == b[0];
      assert a[0] == b[0];
      BelowTotal(a[0], a[0]);
      assert a == [a[0]] + a[1..] && b == [b[0]] + b[1..];
      assert a[0] !in a[1..] && b[0] !in b[1..];
      forall k ensures k in a[1..] <==> k in b[1..] {
        assert k in a <==> k == a[0] || k in a[1..];
        assert k in b <==> k == b[0] || k in b[1..];
      }
      AscendingUnique(a[1..], b[1..]);
      assert a == [a[0]] + a[1..] && b == [b[0]] + b[1..];
    }
  }
}
