/** What several components share: optional results, digits and the effect of unlinking from a list. */
module Common {
  datatype Option<T> = None | Some(value: T)

  function Digit(b: bool): (d: int)
    ensures 0 <= d <= 1
  {
    if b then 1 else 0
  }

  /** `list_del`: the list without its first `b`. */
  function Without(l: seq<nat>, b: nat): seq<nat> {
    if l == [] then [] else if l[0] == b then l[1..] else [l[0]] + Without(l[1..], b)
  }

  ghost predicate Distinct<T>(l: seq<T>) {
    forall i, j :: 0 <= i < j < |l| ==> l[i] != l[j]
  }

  lemma {:induction false} WithoutFacts(l: seq<nat>, b: nat)
    requires Distinct(l)
    ensures Distinct(Without(l, b))
    ensures forall x :: x in Without(l, b) <==> x in l && x != b
    ensures |Without(l, b)| == |l| - (if b in l then 1 else 0)
  {
    if l != [] {
      assert l == [l[0]] + l[1..];
      assert l[0] !in l[1..];
      if l[0] != b {
        WithoutFacts(l[1..], b);
        var w := Without(l[1..], b);
        assert forall x :: x in [l[0]] + w <==> x == l[0] || x in w;
      }
    }
  }

  lemma DistinctJoined<T>(l: seq<T>, b: T)
    requires Distinct(l) && b !in l
    ensures Distinct(l + [b])
  {
  }
}
