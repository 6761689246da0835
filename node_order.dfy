/**
 * The ordering Python's sorted() applies to a list of node ids: strings are
 * compared character by character by code point, and a proper prefix comes
 * first.
 */
module NodeOrder {
  /** a comes no later than b in lexicographic code-point order. */
  predicate LexLe(a: string, b: string)
  {
    |a| == 0 || (0 < |b| && (a[0] < b[0] || (a[0] == b[0] && LexLe(a[1..], b[1..]))))
  }

  lemma {:induction false} LexLeTotal(a: string, b: string)
    ensures LexLe(a, b) || LexLe(b, a)
  {
    if 0 < |a| && 0 < |b| && a[0] == b[0] {
      LexLeTotal(a[1..], b[1..]);
    }
  }

  predicate Sorted(xs: seq<string>)
  {
    forall i, j :: 0 <= i < j < |xs| ==> LexLe(xs[i], xs[j])
  }

  /** Inserts x into a sorted list, before the first element it does not follow. */
  function Insert(x: string, xs: seq<string>): (r: seq<string>)
    requires Sorted(xs)
    ensures Sorted(r)
    ensures multiset(r) == multiset(xs) + multiset{x}
  {
    if xs == [] then [x]
    else if LexLe(x, xs[0]) then
      PrependSorted(x, xs);
      [x] + xs
    else
      var rest := Insert(x, xs[1..]);
      ConsSorted(x, xs, rest);
      [xs[0]] + rest
  }

  /** xs[0] may head any sorted arrangement of x and the rest of xs when x does not come before it. */
  lemma ConsSorted(x: string, xs: seq<string>, rest: seq<string>)
    requires Sorted(xs) && 0 < |xs| && !LexLe(x, xs[0])
    requires Sorted(rest) && multiset(rest) == multiset(xs[1..]) + multiset{x}
    ensures Sorted([xs[0]] + rest)
    ensures multiset([xs[0]] + rest) == multiset(xs) + multiset{x}
  {
    LexLeTotal(x, xs[0]);
    assert xs == [xs[0]] + xs[1..];
    forall j | 0 <= j < |rest|
      ensures LexLe(xs[0], rest[j])
    {
      assert rest[j] in multiset(rest);
      if rest[j] != x {
        assert rest[j] in xs[1..];
      }
    }
  }

  lemma {:induction false} LexLeTransitive(a: string, b: string, c: string)
    requires LexLe(a, b) && LexLe(b, c)
    ensures LexLe(a, c)
  {
    if 0 < |a| && 0 < |b| && 0 < |c| && a[0] == b[0] && b[0] == c[0] {
      LexLeTransitive(a[1..], b[1..], c[1..]);
    }
  }

  /** x placed in front of a sorted list that starts no earlier than x keeps it sorted. */
  lemma PrependSorted(x: string, xs: seq<string>)
    requires Sorted(xs) && 0 < |xs| && LexLe(x, xs[0])
    ensures Sorted([x] + xs)
  {
    forall j | 0 <= j < |xs|
      ensures LexLe(x, xs[j])
    {
      if 0 < j {
        LexLeTransitive(x, xs[0], xs[j]);
      }
    }
  }

  /** sorted(list(nodes)): the node ids in lexicographic order. */
  function SortNodes(nodes: seq<string>): (r: seq<string>)
    ensures Sorted(r)
    ensures multiset(r) == multiset(nodes)
  {
    if nodes == [] then []
    else
      assert nodes == nodes[..|nodes| - 1] + [nodes[|nodes| - 1]];
      Insert(nodes[|nodes| - 1], SortNodes(nodes[..|nodes| - 1]))
  }
}
