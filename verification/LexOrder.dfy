/** The lexicographic order on id lists that breaks ties between critical paths. */
module LexOrder {
  import opened Graph

  predicate Less(a: seq<Id>, b: seq<Id>) {
    if |b| == 0 then false
    else if |a| == 0 then true
    else a[0] < b[0] || (a[0] == b[0] && Less(a[1..], b[1..]))
  }

  /** The loop of `lex_less`. */
  method LexLess(a: seq<Id>, b: seq<Id>) returns (less: bool)
    ensures less == Less(a, b)
  {
    var n := if |a| < |b| then |a| else |b|;
    for i := 0 to n
      invariant Less(a, b) == Less(a[i..], b[i..])
    {
      assert a[i..][1..] == a[i + 1..] && b[i..][1..] == b[i + 1..];
      if a[i] < b[i] {
        return true;
      }
      if a[i] > b[i] {
        return false;
      }
    }
    return |a| < |b|;
  }

  /** `a` comes first when it is a proper prefix of `b`, or smaller where they first differ. */
  lemma {:induction false} LessIsLexicographic(a: seq<Id>, b: seq<Id>)
    ensures Less(a, b) <==> exists k :: 0 <= k <= |a| && k < |b| && a[..k] == b[..k] && (k == |a| || a[k] < b[k])
    decreases |b|
  {
    if |a| == 0 || |b| == 0 {
      assert |b| > 0 ==> a[..0] == b[..0];
    } else {
      LessIsLexicographic(a[1..], b[1..]);
      if Less(a, b) {
        if a[0] < b[0] {
          assert a[..0] == b[..0];
        } else {
          var k :| 0 <= k <= |a[1..]| && k < |b[1..]| && a[1..][..k] == b[1..][..k] && (k == |a[1..]| || a[1..][k] < b[1..][k]);
          PrefixCons(a, b, k);
        }
      }
      if exists k :: 0 <= k <= |a| && k < |b| && a[..k] == b[..k] && (k == |a| || a[k] < b[k]) {
        var k :| 0 <= k <= |a| && k < |b| && a[..k] == b[..k] && (k == |a| || a[k] < b[k]);
        if k > 0 {
          assert a[..k][0] == b[..k][0];
          PrefixTail(a, b, k);
        }
      }
    }
  }

  lemma PrefixCons(a: seq<Id>, b: seq<Id>, k: nat)
    requires |a| > 0 && |b| > 0 && a[0] == b[0] && k <= |a| - 1 && k <= |b| - 1 && a[1..][..k] == b[1..][..k]
    ensures a[..k + 1] == b[..k + 1]
  {
    assert a[..k + 1] == [a[0]] + a[1..][..k];
    assert b[..k + 1] == [b[0]] + b[1..][..k];
  }

  lemma PrefixTail(a: seq<Id>, b: seq<Id>, k: nat)
    requires 0 < k <= |a| && k <= |b| && a[..k] == b[..k]
    ensures a[1..][..k - 1] == b[1..][..k - 1]
  {
    assert a[1..][..k - 1] == a[..k][1..];
    assert b[1..][..k - 1] == b[..k][1..];
  }

  lemma {:induction false} LessTotal(a: seq<Id>, b: seq<Id>)
    ensures a == b || Less(a, b) || Less(b, a)
    decreases |a|
  {
    if |a| > 0 && |b| > 0 && a[0] == b[0] {
      LessTotal(a[1..], b[1..]);
      assert a == [a[0]] + a[1..] && b == [b[0]] + b[1..];
    }
  }

  lemma {:induction false} LessAsymmetric(a: seq<Id>, b: seq<Id>)
    requires Less(a, b)
    ensures !Less(b, a) && a != b
    decreases |a|
  {
    if |a| > 0 && a[0] == b[0] {
      LessAsymmetric(a[1..], b[1..]);
    }
  }

  lemma {:induction false} LessTrans(a: seq<Id>, b: seq<Id>, c: seq<Id>)
    requires Less(a, b) && Less(b, c)
    ensures Less(a, c)
    decreases |a|
  {
    if |a| > 0 && a[0] == b[0] && b[0] == c[0] {
      LessTrans(a[1..], b[1..], c[1..]);
    }
  }

  /** Appending the same node to two lists keeps their order, unless the smaller one
      was a prefix of the other. */
  lemma {:induction false} LessExtends(a: seq<Id>, b: seq<Id>, v: Id)
    requires Less(a, b) && !(a <= b)
    ensures Less(a + [v], b + [v])
    decreases |a|
  {
    var a', b' := a + [v], b + [v];
    assert |a| > 0;
    if a[0] == b[0] {
      assert a == [a[0]] + a[1..] && b == [b[0]] + b[1..];
      LessExtends(a[1..], b[1..], v);
      assert a'[1..] == a[1..] + [v] && b'[1..] == b[1..] + [v];
    }
  }
}
