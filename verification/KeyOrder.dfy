/** The order in which an ordered map keyed by strings is iterated: lexicographic, by character. */
module KeyOrder {

  /** True iff `a` comes before `b` in the iteration order. */
  predicate Precedes(a: string, b: string) {
    b != [] && (a == [] || a[0] < b[0] || (a[0] == b[0] && Precedes(a[1..], b[1..])))
  }

  /** That is: `a` is a proper prefix of `b`, or has the smaller character where they first differ. */
  lemma {:induction false} PrecedesIs(a: string, b: string)
    ensures Precedes(a, b) <==>
              exists k: nat :: k <= |a| && k < |b| && a[..k] == b[..k] && (k == |a| || a[k] < b[k])
  {
    if a != [] && b != [] && a[0] == b[0] {
      PrecedesIs(a[1..], b[1..]);
      if k: nat :| k <= |a| && k < |b| && a[..k] == b[..k] && (k == |a| || a[k] < b[k]) {
        assert a[1..][..k - 1] == a[..k][1..] && b[1..][..k - 1] == b[..k][1..];
      }
      if k: nat :| k <= |a[1..]| && k < |b[1..]| && a[1..][..k] == b[1..][..k]
                   && (k == |a[1..]| || a[1..][k] < b[1..][k]) {
        assert a[..k + 1] == [a[0]] + a[1..][..k] && b[..k + 1] == [b[0]] + b[1..][..k];
      }
    } else if Precedes(a, b) {
      assert a[..0] == b[..0];
    } else {
      assert forall k: nat :: 0 < k <= |a| && k <= |b| ==> a[..k][0] == a[0] && b[..k][0] == b[0];
    }
  }

  lemma {:induction false} Total(a: string, b: string)
    ensures a == b || Precedes(a, b) || Precedes(b, a)
  {
    if a != [] && b != [] && a[0] == b[0] {
      Total(a[1..], b[1..]);
      assert a == [a[0]] + a[1..] && b == [b[0]] + b[1..];
    }
  }

  lemma {:induction false} Transitive(a: string, b: string, c: string)
    requires Precedes(a, b) && Precedes(b, c)
    ensures Precedes(a, c)
  {
    if a != [] && a[0] == b[0] && b[0] == c[0] {
      Transitive(a[1..], b[1..], c[1..]);
    }
  }

  /** `k` is the first key of `s` that the iteration meets. */
  ghost predicate IsFirst(k: string, s: set<string>) {
    k in s && forall other :: other in s ==> other == k || Precedes(k, other)
  }

  lemma {:induction false} FirstExists(s: set<string>) returns (k: string)
    requires s != {}
    ensures IsFirst(k, s)
    decreases |s|
  {
    k :| k in s;
    var rest := s - {k};
    if rest != {} {
      var r := FirstExists(rest);
      Total(k, r);
      if Precedes(k, r) {
        forall other | other in s && other != k ensures Precedes(k, other) {
          if other != r { Transitive(k, r, other); }
        }
      } else {
        k := r;
      }
    }
  }

  /** The keys of an ordered map, in iteration order. */
  ghost predicate Sorted(keys: seq<string>) {
    forall i, j :: 0 <= i < j < |keys| ==> Precedes(keys[i], keys[j])
  }

  lemma FirstByPosition(keys: seq<string>, s: set<string>, i: nat)
    requires Sorted(keys) && i < |keys| && keys[i] in s
    requires forall k :: k in s ==> k in keys
    requires forall j :: 0 <= j < i ==> keys[j] !in s
    ensures IsFirst(keys[i], s)
  {
  }

  /** Inserts a new key at its place in the iteration order. */
  function Insert(keys: seq<string>, k: string): (r: seq<string>)
    ensures forall x :: x in r <==> x in keys || x == k
  {
    if keys == [] then [k]
    else if Precedes(k, keys[0]) then [k] + keys
    else
      assert keys == [keys[0]] + keys[1..];
      [keys[0]] + Insert(keys[1..], k)
  }

  lemma {:induction false} InsertSorted(keys: seq<string>, k: string)
    requires Sorted(keys) && k !in keys
    ensures Sorted(Insert(keys, k))
  {
    if keys != [] {
      Total(k, keys[0]);
      if Precedes(k, keys[0]) {
        forall j | 0 < j < |keys| ensures Precedes(k, keys[j]) {
          Transitive(k, keys[0], keys[j]);
        }
      } else {
        InsertSorted(keys[1..], k);
        var r := Insert(keys[1..], k);
        forall j | 0 <= j < |r| ensures Precedes(keys[0], r[j]) {
          assert r[j] in keys[1..] || r[j] == k;
        }
      }
    }
  }
}
