/**
 * NodeComparer: anchors are equal when their href strings are equal, and the
 * first-occurrence Distinct that this equality drives.
 */
module NodeComparer {
  import opened Strings
  import opened Html

  /** `Equals(x, y)`: C# `==` on the two href strings, an ordinal comparison. */
  predicate Equals(x: Node, y: Node): (b: bool)
    ensures b <==> |x.href| == |y.href| && forall i :: 0 <= i < |x.href| ==> x.href[i] == y.href[i]
  {
    x.href == y.href
  }

  /** The comparer is an equivalence relation. */
  lemma EqualsIsEquivalence()
    ensures forall x: Node :: Equals(x, x)
    ensures forall x: Node, y: Node :: Equals(x, y) <==> Equals(y, x)
    ensures forall x: Node, y: Node, z: Node :: Equals(x, y) && Equals(y, z) ==> Equals(x, z)
  {
  }

  const Int32Min: int := -0x8000_0000
  const Int32Max: int := 0x7FFF_FFFF

  /** Unchecked C# `int` arithmetic: the value congruent to `x` modulo 2^32 in the Int32 range. */
  function WrapInt32(x: int): (r: int)
    ensures Int32Min <= r <= Int32Max
    ensures (r - x) % 0x1_0000_0000 == 0
  {
    (x - Int32Min) % 0x1_0000_0000 + Int32Min
  }

  /**
   * `GetHashCode(obj)`: the href's string hash times 17, wrapped to Int32.
   * `stringHash` stands for String.GetHashCode, which .NET randomises per process.
   */
  function GetHashCode(stringHash: string -> int, obj: Node): (h: int)
    ensures Int32Min <= h <= Int32Max
    ensures (h - stringHash(obj.href) * 17) % 0x1_0000_0000 == 0
  {
    WrapInt32(stringHash(obj.href) * 17)
  }

  /** Nodes equal under the comparer hash alike, whatever the string hash. */
  lemma HashRespectsEquals(stringHash: string -> int, x: Node, y: Node)
    requires Equals(x, y)
    ensures GetHashCode(stringHash, x) == GetHashCode(stringHash, y)
  {
  }

  /** The set of hrefs of some nodes. */
  ghost function Hrefs(nodes: seq<Node>): set<string>
  {
    set n | n in nodes :: n.href
  }

  /** No two nodes are equal under the comparer. */
  ghost predicate PairwiseDistinct(nodes: seq<Node>)
  {
    forall a, b :: 0 <= a < b < |nodes| ==> !Equals(nodes[a], nodes[b])
  }

  /**
   * Enumerable.Distinct with this comparer, after the nodes equal to one with an
   * href in `seen` have already been yielded: the first node of each new href, in
   * input order.
   */
  function DistinctFrom(nodes: seq<Node>, seen: set<string>): (r: seq<Node>)
    ensures IsSubsequence(r, nodes)
    ensures Hrefs(r) == Hrefs(nodes) - seen
    decreases |nodes|
  {
    if nodes == [] then []
    else
      assert Hrefs(nodes) == {nodes[0].href} + Hrefs(nodes[1..]) by {
        assert forall n :: n in nodes <==> n == nodes[0] || n in nodes[1..];
      }
      if nodes[0].href in seen then
        var r := DistinctFrom(nodes[1..], seen);
        SubsequenceSkip(r, nodes);
        r
      else
        var rest := DistinctFrom(nodes[1..], seen + {nodes[0].href});
        var r := [nodes[0]] + rest;
        assert r[1..] == rest;
        assert Hrefs(r) == {nodes[0].href} + Hrefs(rest) by {
          assert forall n :: n in r <==> n == nodes[0] || n in rest;
        }
        r
  }

  /** No two nodes that DistinctFrom yields are equal under the comparer. */
  lemma {:induction false} DistinctFromPairwise(nodes: seq<Node>, seen: set<string>)
    ensures PairwiseDistinct(DistinctFrom(nodes, seen))
    decreases |nodes|
  {
    if nodes != [] && nodes[0].href in seen {
      DistinctFromPairwise(nodes[1..], seen);
    } else if nodes != [] {
      var rest := DistinctFrom(nodes[1..], seen + {nodes[0].href});
      DistinctFromPairwise(nodes[1..], seen + {nodes[0].href});
      var r := DistinctFrom(nodes, seen);
      assert r == [nodes[0]] + rest;
      forall a, b | 0 <= a < b < |r|
        ensures !Equals(r[a], r[b])
      {
        assert r[b] == rest[b - 1];
        assert rest[b - 1].href in Hrefs(rest);
        if a > 0 {
          assert r[a] == rest[a - 1];
        }
      }
    }
  }

  /** `nodes.Distinct(new NodeComparer())`. */
  function Distinct(nodes: seq<Node>): (r: seq<Node>)
    ensures IsSubsequence(r, nodes)
    ensures PairwiseDistinct(r)
    ensures Hrefs(r) == Hrefs(nodes)
  {
    DistinctFromPairwise(nodes, {});
    DistinctFrom(nodes, {})
  }

  /** Distinct over a concatenation: the second part only contributes hrefs the first did not. */
  lemma {:induction false} DistinctFromAppend(a: seq<Node>, b: seq<Node>, seen: set<string>)
    ensures DistinctFrom(a + b, seen) == DistinctFrom(a, seen) + DistinctFrom(b, seen + Hrefs(a))
    decreases |a|
  {
    if a == [] {
      assert a + b == b;
      assert Hrefs(a) == {};
      assert seen + Hrefs(a) == seen;
    } else {
      assert (a + b)[0] == a[0] && (a + b)[1..] == a[1..] + b;
      assert Hrefs(a) == {a[0].href} + Hrefs(a[1..]) by {
        assert forall n :: n in a <==> n == a[0] || n in a[1..];
      }
      if a[0].href in seen {
        DistinctFromAppend(a[1..], b, seen);
        assert seen + Hrefs(a[1..]) == seen + Hrefs(a);
      } else {
        DistinctFromAppend(a[1..], b, seen + {a[0].href});
        assert seen + {a[0].href} + Hrefs(a[1..]) == seen + Hrefs(a);
      }
    }
  }

  /**
   * First occurrence: the distinct nodes of `nodes[..i+1]` are those of `nodes[..i]`,
   * followed by `nodes[i]` exactly when no earlier node has its href.
   */
  lemma DistinctKeepsFirstOccurrence(nodes: seq<Node>, i: nat)
    requires i < |nodes|
    ensures (forall j :: 0 <= j < i ==> !Equals(nodes[j], nodes[i])) ==>
      Distinct(nodes[..i + 1]) == Distinct(nodes[..i]) + [nodes[i]]
    ensures (exists j :: 0 <= j < i && Equals(nodes[j], nodes[i])) ==>
      Distinct(nodes[..i + 1]) == Distinct(nodes[..i])
  {
    assert nodes[..i + 1] == nodes[..i] + [nodes[i]];
    DistinctFromAppend(nodes[..i], [nodes[i]], {});
    var none: set<string> := {};
    assert none + Hrefs(nodes[..i]) == Hrefs(nodes[..i]);
    assert nodes[i].href in Hrefs(nodes[..i]) <==> exists j :: 0 <= j < i && Equals(nodes[j], nodes[i]) by {
      if nodes[i].href in Hrefs(nodes[..i]) {
        var n :| n in nodes[..i] && n.href == nodes[i].href;
        var j :| 0 <= j < i && nodes[..i][j] == n;
        assert Equals(nodes[j], nodes[i]);
      }
      if exists j :: 0 <= j < i && Equals(nodes[j], nodes[i]) {
        var j :| 0 <= j < i && Equals(nodes[j], nodes[i]);
        assert nodes[j] in nodes[..i];
      }
    }
  }

  /** Nodes already pairwise distinct and unseen pass through unchanged. */
  lemma {:induction false} DistinctFromOfDistinct(nodes: seq<Node>, seen: set<string>)
    requires PairwiseDistinct(nodes)
    requires forall k :: 0 <= k < |nodes| ==> nodes[k].href !in seen
    ensures DistinctFrom(nodes, seen) == nodes
    decreases |nodes|
  {
    if nodes != [] {
      assert forall k :: 0 <= k < |nodes[1..]| ==> nodes[1..][k] == nodes[k + 1];
      DistinctFromOfDistinct(nodes[1..], seen + {nodes[0].href});
      assert [nodes[0]] + nodes[1..] == nodes;
    }
  }

  /** Applying Distinct twice gives the same result as applying it once. */
  lemma DistinctIdempotent(nodes: seq<Node>)
    ensures Distinct(Distinct(nodes)) == Distinct(nodes)
  {
    DistinctFromOfDistinct(Distinct(nodes), {});
  }
}
