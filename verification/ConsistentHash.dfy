/** The consistent-hash ring of the Python client. The hash function is a parameter. */
module ConsistentHash {
  import opened Wrappers

  type Hash = string -> nat

  datatype Bucket = Bucket(name: string, point: nat)

  /** `str(i)`. */
  function Decimal(i: nat): string
  {
    if i < 10 then ["0123456789"[i]] else Decimal(i / 10) + ["0123456789"[i % 10]]
  }

  /** The first `n` points of a node. */
  function Points(node: string, n: nat, h: Hash): seq<Bucket>
  {
    if n == 0 then [] else Points(node, n - 1, h) + [Bucket(node, h(Decimal(n - 1) + node))]
  }

  /** The points of all nodes, in the order of the node list. */
  function Buckets(nodes: seq<string>, replicas: nat, h: Hash): seq<Bucket>
  {
    if nodes == [] then []
    else Buckets(nodes[..|nodes| - 1], replicas, h) + Points(nodes[|nodes| - 1], replicas, h)
  }

  /** The number a string of digits stands for. */
  function Number(s: string): int
  {
    if s == "" then 0 else Number(s[..|s| - 1]) * 10 + (s[|s| - 1] as int - '0' as int)
  }

  lemma {:induction false} DecimalIs(i: nat)
    ensures Decimal(i) != "" && Number(Decimal(i)) == i && (Decimal(i)[0] == '0' ==> i == 0)
    ensures forall j :: 0 <= j < |Decimal(i)| ==> '0' <= Decimal(i)[j] <= '9'
  {
    var d := ["0123456789"[i % 10]];
    assert d[0] as int == '0' as int + i % 10;
    if i < 10 {
      assert Number(d[..0]) == 0;
    } else {
      DecimalIs(i / 10);
      assert Decimal(i)[..|Decimal(i)| - 1] == Decimal(i / 10);
    }
  }

  lemma {:induction false} PointsAt(node: string, n: nat, h: Hash, i: nat)
    requires i < n
    ensures |Points(node, n, h)| == n && Points(node, n, h)[i] == Bucket(node, h(Decimal(i) + node))
  {
    if n > 1 { PointsAt(node, n - 1, h, if i < n - 1 then i else 0); }
  }

  /** Every node has as many points as there are replicas; point `i` is the hash of the decimal of `i`
      and the name. */
  lemma {:induction false} BucketsAt(nodes: seq<string>, replicas: nat, h: Hash, j: nat, i: nat)
    requires j < |nodes| && i < replicas
    ensures |Buckets(nodes, replicas, h)| == |nodes| * replicas && j * replicas + i < |nodes| * replicas
    ensures Buckets(nodes, replicas, h)[j * replicas + i] == Bucket(nodes[j], h(Decimal(i) + nodes[j]))
  {
    hide Points, Decimal;
    var n := |nodes| - 1;
    var init := nodes[..n];
    PointsAt(nodes[n], replicas, h, i);
    assert (n + 1) * replicas == n * replicas + replicas;
    if n == 0 {
      assert j * replicas == 0;
    } else {
      BucketsAt(init, replicas, h, if j < n then j else 0, i);
    }
  }

  // ---------------------------------------------------------------- a stable sort

  ghost predicate Ordered(s: seq<Bucket>)
  {
    forall i, j :: 0 <= i < j < |s| ==> s[i].point <= s[j].point
  }

  /** Behind all points that are not greater. */
  function Insert(s: seq<Bucket>, b: Bucket): seq<Bucket>
  {
    if s == [] || s[|s| - 1].point <= b.point then s + [b]
    else Insert(s[..|s| - 1], b) + [s[|s| - 1]]
  }

  /** `sorted` by point: stable. */
  function Sorted(s: seq<Bucket>): seq<Bucket>
  {
    if s == [] then [] else Insert(Sorted(s[..|s| - 1]), s[|s| - 1])
  }

  function Ring(nodes: seq<string>, replicas: nat, h: Hash): seq<Bucket>
  {
    Sorted(Buckets(nodes, replicas, h))
  }

  function Filter(s: seq<Bucket>, p: Bucket -> bool): seq<Bucket>
  {
    if s == [] then []
    else Filter(s[..|s| - 1], p) + (if p(s[|s| - 1]) then [s[|s| - 1]] else [])
  }

  lemma {:induction false} InsertSame(s: seq<Bucket>, b: Bucket)
    ensures multiset(Insert(s, b)) == multiset(s) + multiset{b}
  {
    if s != [] && s[|s| - 1].point > b.point {
      InsertSame(s[..|s| - 1], b);
      assert s == s[..|s| - 1] + [s[|s| - 1]];
    }
  }

  lemma {:induction false} InsertOrdered(s: seq<Bucket>, b: Bucket)
    requires Ordered(s)
    ensures Ordered(Insert(s, b))
  {
    if s != [] && s[|s| - 1].point > b.point {
      var init, last := s[..|s| - 1], s[|s| - 1];
      InsertOrdered(init, b);
      InsertSame(init, b);
      hide Insert;
      var t := Insert(init, b);
      forall i | 0 <= i < |t| ensures t[i].point <= last.point {
        assert t[i] in multiset(t);
      }
      assert Ordered(t + [last]);
      InsertBelow(init, last, b);
      assert s == init + [last];
    }
  }

  /** The ring holds every point once, in ascending order. */
  lemma {:induction false} SortedOrdered(s: seq<Bucket>)
    ensures Ordered(Sorted(s)) && multiset(Sorted(s)) == multiset(s)
  {
    if s != [] {
      SortedOrdered(s[..|s| - 1]);
      InsertOrdered(Sorted(s[..|s| - 1]), s[|s| - 1]);
      InsertSame(Sorted(s[..|s| - 1]), s[|s| - 1]);
      hide Insert;
      assert s == s[..|s| - 1] + [s[|s| - 1]];
    }
  }

  lemma {:induction false} FilterIn(s: seq<Bucket>, p: Bucket -> bool, b: Bucket)
    ensures b in Filter(s, p) <==> b in s && p(b)
  {
    if s != [] {
      FilterIn(s[..|s| - 1], p, b);
      assert s == s[..|s| - 1] + [s[|s| - 1]];
    }
  }

  lemma FilterSnoc(s: seq<Bucket>, b: Bucket, p: Bucket -> bool)
    ensures Filter(s + [b], p) == if p(b) then Filter(s, p) + [b] else Filter(s, p)
  {
    assert (s + [b])[..|s|] == s;
  }

  lemma InsertBelow(s: seq<Bucket>, x: Bucket, b: Bucket)
    requires x.point > b.point
    ensures Insert(s + [x], b) == Insert(s, b) + [x]
  {
    assert (s + [x])[..|s|] == s;
  }

  lemma InsertLast(s: seq<Bucket>, b: Bucket)
    requires forall x :: x in s ==> x.point <= b.point
    ensures Insert(s, b) == s + [b]
  {
  }

  lemma SortedSnoc(s: seq<Bucket>, b: Bucket)
    ensures Sorted(s + [b]) == Insert(Sorted(s), b)
  {
    assert (s + [b])[..|s|] == s;
  }

  lemma {:induction false} InsertFilter(s: seq<Bucket>, b: Bucket, p: Bucket -> bool)
    requires Ordered(s)
    ensures Filter(Insert(s, b), p) == if p(b) then Insert(Filter(s, p), b) else Filter(s, p)
  {
    if s == [] || s[|s| - 1].point <= b.point {
      hide Insert, Filter;
      forall x | x in s ensures x.point <= b.point { }
      InsertLast(s, b);
      FilterSnoc(s, b, p);
      forall x | x in Filter(s, p) ensures x.point <= b.point { FilterIn(s, p, x); }
      InsertLast(Filter(s, p), b);
    } else {
      hide Insert, Filter;
      var init, last := s[..|s| - 1], s[|s| - 1];
      assert s == init + [last];
      InsertFilter(init, b, p);
      InsertBelow(init, last, b);
      FilterSnoc(Insert(init, b), last, p);
      FilterSnoc(init, last, p);
      InsertBelow(Filter(init, p), last, b);
    }
  }

  /** Sorting and leaving out points commute: the sort is stable. */
  lemma {:induction false} SortedFilter(s: seq<Bucket>, p: Bucket -> bool)
    ensures Filter(Sorted(s), p) == Sorted(Filter(s, p))
  {
    if s != [] {
      hide Insert, Filter, Sorted;
      var init, last := s[..|s| - 1], s[|s| - 1];
      assert s == init + [last];
      SortedFilter(init, p);
      SortedOrdered(init);
      SortedSnoc(init, last);
      InsertFilter(Sorted(init), last, p);
      FilterSnoc(init, last, p);
      SortedSnoc(Filter(init, p), last);
    }
  }

  // ---------------------------------------------------------------- lookup

  /** The first bucket from `i` on whose point is greater than `p`. */
  function FirstAbove(s: seq<Bucket>, p: nat, i: nat): Option<Bucket>
    requires i <= |s|
    decreases |s| - i
  {
    if i == |s| then None else if s[i].point > p then Some(s[i]) else FirstAbove(s, p, i + 1)
  }

  /** The owner of a point: the first greater bucket, or the first bucket of all. */
  function Owner(s: seq<Bucket>, p: nat): Option<string>
  {
    if s == [] then None
    else
      var b := FirstAbove(s, p, 0);
      Some(if b.Some? then b.value.name else s[0].name)
  }

  /** The first bucket above survives if it is not left out, with nothing new before it. */
  lemma {:induction false} FirstAboveFilter(s: seq<Bucket>, p: nat, q: Bucket -> bool)
    ensures var b := FirstAbove(s, p, 0);
            && (b.Some? && q(b.value) ==> FirstAbove(Filter(s, q), p, 0) == b)
            && (b.None? ==> FirstAbove(Filter(s, q), p, 0) == None)
  {
    hide Filter;
    if s == [] {
      assert Filter(s, q) == [] by { FilterEmpty(q); }
    } else {
      var init, last := s[..|s| - 1], s[|s| - 1];
      assert s == init + [last];
      FilterSnoc(init, last, q);
      FirstAboveFilter(init, p, q);
      FirstAboveSnoc(init, last, p, 0);
      FirstAboveSnoc(Filter(init, q), last, p, 0);
    }
  }

  lemma FilterEmpty(q: Bucket -> bool)
    ensures Filter([], q) == []
  {
  }

  lemma {:induction false} FirstAboveSnoc(s: seq<Bucket>, b: Bucket, p: nat, i: nat)
    requires i <= |s|
    ensures FirstAbove(s + [b], p, i) ==
            if FirstAbove(s, p, i).Some? then FirstAbove(s, p, i) else if b.point > p then Some(b) else None
    decreases |s| - i
  {
    if i < |s| { FirstAboveSnoc(s, b, p, i + 1); }
  }

  lemma {:induction false} FirstFilter(s: seq<Bucket>, q: Bucket -> bool)
    requires s != [] && q(s[0])
    ensures Filter(s, q) != [] && Filter(s, q)[0] == s[0]
  {
    if |s| > 1 {
      FirstFilter(s[..|s| - 1], q);
    } else {
      assert s[..0] == [];
    }
  }

  /** A point that is not moved to or from the nodes left out keeps its owner. */
  lemma OwnerFilter(s: seq<Bucket>, p: nat, q: Bucket -> bool, name: string)
    requires forall b :: b in s ==> (q(b) <==> b.name != name)
    requires s != [] && Owner(s, p) != Some(name)
    ensures Owner(Filter(s, q), p) == Owner(s, p)
  {
    hide Filter;
    FirstAboveFilter(s, p, q);
    FirstAboveIn(s, p, 0);
    if FirstAbove(s, p, 0).Some? {
      assert q(FirstAbove(s, p, 0).value);
    } else {
      FirstFilter(s, q);
    }
  }

  /** On the ring that is the least point greater than `p`. */
  lemma {:induction false} FirstAboveLeast(s: seq<Bucket>, p: nat, i: nat, x: Bucket)
    requires Ordered(s) && i <= |s| && x in s[i..] && x.point > p
    ensures FirstAbove(s, p, i).Some? && p < FirstAbove(s, p, i).value.point <= x.point
    decreases |s| - i
  {
    var j :| i <= j < |s| && s[j] == x;
    if s[i].point <= p { FirstAboveLeast(s, p, i + 1, x); }
  }

  lemma {:induction false} FirstAboveIn(s: seq<Bucket>, p: nat, i: nat)
    requires i <= |s|
    ensures FirstAbove(s, p, i).Some? ==> FirstAbove(s, p, i).value in s
    decreases |s| - i
  {
    if i < |s| && s[i].point <= p { FirstAboveIn(s, p, i + 1); }
  }

  // ---------------------------------------------------------------- minimal disruption

  lemma {:induction false} PointsNamed(node: string, n: nat, h: Hash, q: Bucket -> bool, name: string)
    requires forall b :: q(b) <==> b.name != name
    ensures Filter(Points(node, n, h), q) == if node == name then [] else Points(node, n, h)
  {
    if n == 0 {
      FilterEmpty(q);
    } else {
      PointsNamed(node, n - 1, h, q, name);
      FilterSnoc(Points(node, n - 1, h), Bucket(node, h(Decimal(n - 1) + node)), q);
    }
  }

  lemma {:induction false} FilterConcat(s: seq<Bucket>, t: seq<Bucket>, q: Bucket -> bool)
    ensures Filter(s + t, q) == Filter(s, q) + Filter(t, q)
  {
    hide Filter;
    if t == [] {
      assert s + t == s;
      FilterEmpty(q);
    } else {
      var init, last := t[..|t| - 1], t[|t| - 1];
      assert t == init + [last] && s + t == (s + init) + [last];
      FilterConcat(s, init, q);
      FilterSnoc(s + init, last, q);
      FilterSnoc(init, last, q);
    }
  }

  /** The node list without a node. */
  function Others(nodes: seq<string>, name: string): seq<string>
  {
    if nodes == [] then []
    else Others(nodes[..|nodes| - 1], name) + (if nodes[|nodes| - 1] == name then [] else [nodes[|nodes| - 1]])
  }

  lemma {:induction false} BucketsFilter(nodes: seq<string>, replicas: nat, h: Hash, q: Bucket -> bool, name: string)
    requires forall b :: q(b) <==> b.name != name
    ensures Filter(Buckets(nodes, replicas, h), q) == Buckets(Others(nodes, name), replicas, h)
  {
    hide Filter, Points;
    if nodes == [] {
      FilterEmpty(q);
    } else {
      var init, last := nodes[..|nodes| - 1], nodes[|nodes| - 1];
      BucketsFilter(init, replicas, h, q, name);
      FilterConcat(Buckets(init, replicas, h), Points(last, replicas, h), q);
      PointsNamed(last, replicas, h, q, name);
      if last != name {
        var others := Others(init, name);
        assert (others + [last])[..|others|] == others;
      } else {
        assert Others(nodes, name) == Others(init, name);
      }
    }
  }

  /** Taking a node away, or putting one in, wherever it stands in the list and whichever
      points collide, changes the owner of no key but those that the node itself owns. */
  lemma MinimalDisruption(nodes: seq<string>, name: string, replicas: nat, h: Hash, key: string)
    requires Ring(nodes, replicas, h) != [] && Owner(Ring(nodes, replicas, h), h(key)) != Some(name)
    ensures Owner(Ring(Others(nodes, name), replicas, h), h(key)) == Owner(Ring(nodes, replicas, h), h(key))
  {
    hide Filter, Owner, Sorted, Buckets, Others;
    var q := (b: Bucket) => b.name != name;
    BucketsFilter(nodes, replicas, h, q, name);
    SortedFilter(Buckets(nodes, replicas, h), q);
    OwnerFilter(Ring(nodes, replicas, h), h(key), q, name);
  }

  /** Putting in a node that is not there: every key stays or moves to the new node. */
  lemma Added(before: seq<string>, after: seq<string>, name: string, replicas: nat, h: Hash, key: string)
    requires name !in before && name !in after && Ring(before + [name] + after, replicas, h) != []
    ensures var owner := Owner(Ring(before + [name] + after, replicas, h), h(key));
            owner == Some(name) || owner == Owner(Ring(before + after, replicas, h), h(key))
  {
    hide Ring, Owner;
    var nodes := before + [name] + after;
    OthersOf(before, after, name);
    if Owner(Ring(nodes, replicas, h), h(key)) != Some(name) {
      MinimalDisruption(nodes, name, replicas, h, key);
    }
  }

  lemma OthersSnoc(nodes: seq<string>, x: string, name: string)
    ensures Others(nodes + [x], name) == if x == name then Others(nodes, name) else Others(nodes, name) + [x]
  {
    assert (nodes + [x])[..|nodes|] == nodes;
  }

  lemma {:induction false} OthersOf(before: seq<string>, after: seq<string>, name: string)
    requires name !in before && name !in after
    ensures Others(before + [name] + after, name) == before + after
  {
    if after == [] {
      OthersSame(before, name);
      OthersSnoc(before, name, name);
      assert before + [name] + after == before + [name] && before + after == before;
    } else {
      hide Others;
      var init, last := after[..|after| - 1], after[|after| - 1];
      assert after == init + [last];
      OthersOf(before, init, name);
      OthersSnoc(before + [name] + init, last, name);
      assert before + [name] + after == before + [name] + init + [last];
      assert before + after == before + init + [last];
    }
  }

  lemma {:induction false} OthersSame(nodes: seq<string>, name: string)
    requires name !in nodes
    ensures Others(nodes, name) == nodes
  {
    if nodes != [] {
      hide Others;
      var init, last := nodes[..|nodes| - 1], nodes[|nodes| - 1];
      OthersSame(init, name);
      OthersSnoc(init, last, name);
      assert nodes == init + [last];
    }
  }

  // ---------------------------------------------------------------- the class

  class CHash {
    const buckets: seq<Bucket>
    const hash: Hash

    constructor (nodes: seq<string>, replicas: nat, hash: Hash)
      ensures buckets == Ring(nodes, replicas, hash) && this.hash == hash && Ordered(buckets)
    {
      var bs := [];
      for n := 0 to |nodes|
        invariant bs == Buckets(nodes[..n], replicas, hash)
      {
        for i := 0 to replicas
          invariant bs == Buckets(nodes[..n], replicas, hash) + Points(nodes[n], i, hash)
        {
          bs := bs + [Bucket(nodes[n], hash(Decimal(i) + nodes[n]))];
        }
        assert nodes[..n + 1][..n] == nodes[..n];
      }
      assert nodes[..|nodes|] == nodes;
      SortedOrdered(bs);
      buckets := Sorted(bs);
      this.hash := hash;
    }

    /** Binary search for the first greater point. */
    method Lookup(key: string) returns (owner: Option<string>)
      requires Ordered(buckets)
      ensures owner == Owner(buckets, hash(key))
    {
      var point := hash(key);
      var low, high := 0, |buckets|;
      while low < high
        invariant 0 <= low <= high <= |buckets|
        invariant forall i :: 0 <= i < low ==> buckets[i].point <= point
        invariant forall i :: high <= i < |buckets| ==> buckets[i].point > point
      {
        var mid := low + (high - low) / 2;
        if buckets[mid].point > point {
          high := mid;
        } else {
          low := mid + 1;
        }
      }
      FirstAboveAt(buckets, point, 0, low);
      if low >= |buckets| {
        low := 0;
      }
      if low >= |buckets| {
        return None;
      }
      owner := Some(buckets[low].name);
    }
  }

  lemma {:induction false} FirstAboveAt(s: seq<Bucket>, p: nat, i: nat, low: nat)
    requires i <= low <= |s|
    requires forall j :: 0 <= j < low ==> s[j].point <= p
    requires low < |s| ==> s[low].point > p
    ensures FirstAbove(s, p, i) == if low < |s| then Some(s[low]) else None
    decreases low - i
  {
    if i < low { FirstAboveAt(s, p, i + 1, low); }
  }
}
