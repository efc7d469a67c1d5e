/** The order of std::string, and the order in which a std::map<std::string, _> is walked. */
module StringOrder {

  predicate Leq(a: string, b: string) {
    a == [] || (b != [] && (a[0] < b[0] || (a[0] == b[0] && Leq(a[1..], b[1..]))))
  }

  /** The first difference decides, or else the length. */
  lemma {:induction false} LeqMeans(a: string, b: string)
    ensures Leq(a, b) <==> a <= b || exists i :: 0 <= i < |a| && i < |b| && a[..i] == b[..i] && a[i] < b[i]
  {
    if a != [] && b != [] && a[0] == b[0] {
      LeqMeans(a[1..], b[1..]);
      assert a <= b <==> a[1..] <= b[1..];
      if i :| 0 <= i < |a[1..]| && i < |b[1..]| && a[1..][..i] == b[1..][..i] && a[1..][i] < b[1..][i] {
        assert a[..i + 1] == [a[0]] + a[1..][..i] && b[..i + 1] == [b[0]] + b[1..][..i];
      }
      if i :| 0 <= i < |a| && i < |b| && a[..i] == b[..i] && a[i] < b[i] {
        assert a[..i][1..] == a[1..][..i - 1] && b[..i][1..] == b[1..][..i - 1];
      }
    } else if a != [] && b != [] && a[0] < b[0] {
      assert a[..0] == b[..0];
    }
  }

  lemma LeqTotal(a: string, b: string)
    ensures Leq(a, b) || Leq(b, a)
  {}

  lemma LeqTransitive(a: string, b: string, c: string)
    requires Leq(a, b) && Leq(b, c)
    ensures Leq(a, c)
  {}

  lemma LeqAntisymmetric(a: string, b: string)
    requires Leq(a, b) && Leq(b, a)
    ensures a == b
  {
    if a != [] {
      LeqAntisymmetric(a[1..], b[1..]);
      assert a == [a[0]] + a[1..] && b == [b[0]] + b[1..];
    }
  }

  predicate IsLeast(k: string, keys: set<string>) {
    k in keys && forall j :: j in keys ==> Leq(k, j)
  }

  lemma LeastExists(keys: set<string>)
    requires keys != {}
    ensures exists k :: IsLeast(k, keys)
  {
    var x :| x in keys;
    LeqTotal(x, x);
    var rest := keys - {x};
    if rest == {} {
      assert keys == {x};
      assert IsLeast(x, keys);
    } else {
      LeastExists(rest);
      var y :| IsLeast(y, rest);
      LeqTotal(x, y);
      if Leq(x, y) {
        forall j | j in keys ensures Leq(x, j) {
          if j != x { LeqTransitive(x, y, j); }
        }
        assert IsLeast(x, keys);
      } else {
        assert IsLeast(y, keys);
      }
    }
  }

  lemma LeastUnique(j: string, k: string, keys: set<string>)
    requires IsLeast(j, keys) && IsLeast(k, keys)
    ensures j == k
  {
    LeqAntisymmetric(j, k);
  }

  /** The keys in increasing order. */
  function SortedKeys(keys: set<string>): (r: seq<string>)
    ensures |r| == |keys|
    ensures forall k :: k in r <==> k in keys
    ensures forall i, j :: 0 <= i < j < |r| ==> r[i] != r[j] && Leq(r[i], r[j])
  {
    if keys == {} then []
    else
      LeastExists(keys);
      assert forall j, k :: IsLeast(j, keys) && IsLeast(k, keys) ==> j == k by {
        forall j, k | IsLeast(j, keys) && IsLeast(k, keys) ensures j == k {
          LeastUnique(j, k, keys);
        }
      }
      var least :| IsLeast(least, keys);
      [least] + SortedKeys(keys - {least})
  }
}
