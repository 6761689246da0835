/**
 * The product-route list of tools/syncraft/product_setup.py.
 *
 * A product route is a label (the field `name`, since `label` is a Dafny
 * keyword), the ordered stations it flows through, and a
 * display colour. The list loaded from the product store is an input of each
 * operation and the list it would save is its output; the simulation graph
 * enters as the sequence of its node ids.
 */
module ProductRoutes {
  import opened Wrappers
  import NodeOrder

  type NodeId = string

  datatype ProductRoute = ProductRoute(name: string, route: seq<NodeId>, color: string)

  /** The colour add_product_route uses when none is given. */
  const DefaultColor: string := "red"

  const MissingNodesError: string :=
    "Some stations in the product route do not exist in the simulation graph."

  /** The dictionary add_product_route returns. */
  datatype AddResult =
    | Added
    | Rejected(error: string, missingNodes: seq<NodeId>, availableNodes: seq<NodeId>)

  // ---------------------------------------------------------------------
  // Route validation
  // ---------------------------------------------------------------------

  /** The stations of `route` that are not graph nodes, in route order, repeats kept. */
  function MissingNodes(route: seq<NodeId>, nodes: seq<NodeId>): (missing: seq<NodeId>)
    ensures |missing| <= |route|
  {
    if route == [] then []
    else (if route[0] in nodes then [] else [route[0]]) + MissingNodes(route[1..], nodes)
  }

  /** A station is reported exactly as often as the route visits it when it is not a node, else never. */
  lemma {:induction false} MissingNodesExactly(route: seq<NodeId>, nodes: seq<NodeId>)
    ensures forall x :: x in MissingNodes(route, nodes) <==> x in route && x !in nodes
    ensures forall x :: x !in nodes ==> multiset(MissingNodes(route, nodes))[x] == multiset(route)[x]
    ensures forall x :: x in nodes ==> multiset(MissingNodes(route, nodes))[x] == 0
  {
    if route != [] {
      MissingNodesExactly(route[1..], nodes);
      assert route == [route[0]] + route[1..];
    }
  }

  /** Filtering commutes with concatenation: the missing stations keep the route's order. */
  lemma {:induction false} MissingNodesAppend(a: seq<NodeId>, b: seq<NodeId>, nodes: seq<NodeId>)
    ensures MissingNodes(a + b, nodes) == MissingNodes(a, nodes) + MissingNodes(b, nodes)
  {
    if a != [] {
      var head := if a[0] in nodes then [] else [a[0]];
      assert (a + b)[0] == a[0] && (a + b)[1..] == a[1..] + b;
      MissingNodesAppend(a[1..], b, nodes);
      calc {
        MissingNodes(a + b, nodes);
        head + MissingNodes(a[1..] + b, nodes);
        head + (MissingNodes(a[1..], nodes) + MissingNodes(b, nodes));
        (head + MissingNodes(a[1..], nodes)) + MissingNodes(b, nodes);
      }
    } else {
      assert a + b == b;
    }
  }

  // ---------------------------------------------------------------------
  // Upsert by name
  // ---------------------------------------------------------------------

  /** The position of the first record carrying `name`, if any. */
  function IndexOfName(products: seq<ProductRoute>, name: string): (k: Option<nat>)
    ensures k.Some? ==>
      && k.value < |products|
      && products[k.value].name == name
      && forall j :: 0 <= j < k.value ==> products[j].name != name
    ensures k.None? ==> forall j :: 0 <= j < |products| ==> products[j].name != name
  {
    if products == [] then None
    else if products[0].name == name then Some(0)
    else match IndexOfName(products[1..], name)
      case None => None
      case Some(k) => Some(k + 1)
  }

  /**
   * The list after adding `p`: the first record with p's name is replaced by
   * p; without one, p goes at the end.
   */
  function Upsert(products: seq<ProductRoute>, p: ProductRoute): (r: seq<ProductRoute>)
    ensures p in r
    ensures |products| <= |r| <= |products| + 1
  {
    if products == [] then [p]
    else if products[0].name == p.name then [p] + products[1..]
    else [products[0]] + Upsert(products[1..], p)
  }

  /** With a record labelled like p at position k, only that record changes, to p. */
  lemma {:induction false} UpsertOverwritesFirstMatch(products: seq<ProductRoute>, p: ProductRoute, k: nat)
    requires IndexOfName(products, p.name) == Some(k)
    ensures Upsert(products, p) == products[k := p]
    ensures |Upsert(products, p)| == |products|
    ensures forall j :: 0 <= j < |products| && j != k ==> Upsert(products, p)[j] == products[j]
  {
    if products[0].name != p.name {
      UpsertOverwritesFirstMatch(products[1..], p, k - 1);
      assert products == [products[0]] + products[1..];
    }
  }

  /** With no record labelled like p, p is appended and the rest is untouched. */
  lemma {:induction false} UpsertAppends(products: seq<ProductRoute>, p: ProductRoute)
    requires IndexOfName(products, p.name) == None
    ensures Upsert(products, p) == products + [p]
  {
    if products != [] {
      UpsertAppends(products[1..], p);
      assert products == [products[0]] + products[1..];
    }
  }

  /** After an upsert the list holds p, and it is the first record with p's name. */
  lemma {:induction false} UpsertContains(products: seq<ProductRoute>, p: ProductRoute)
    ensures p in Upsert(products, p)
    ensures match IndexOfName(Upsert(products, p), p.name)
      case Some(k) => Upsert(products, p)[k] == p
      case None => false
  {
    if products != [] && products[0].name != p.name {
      UpsertContains(products[1..], p);
    }
  }

  /** Adding the same record twice gives the list adding it once gives. */
  lemma {:induction false} UpsertIdempotent(products: seq<ProductRoute>, p: ProductRoute)
    ensures Upsert(Upsert(products, p), p) == Upsert(products, p)
  {
    if products != [] && products[0].name != p.name {
      UpsertIdempotent(products[1..], p);
    }
  }

  /** add_product_route(label, route, color), with the label passed as `name`. */
  method AddProductRoute(products: seq<ProductRoute>, nodes: seq<NodeId>, name: string,
                         route: seq<NodeId>, color: string := DefaultColor)
    returns (result: AddResult, saved: Option<seq<ProductRoute>>)
    ensures result.Added? <==> forall station :: station in route ==> station in nodes
    ensures result.Rejected? ==>
      && result == Rejected(MissingNodesError, MissingNodes(route, nodes), NodeOrder.SortNodes(nodes))
      && saved == None
    ensures result.Added? ==> saved == Some(Upsert(products, ProductRoute(name, route, color)))
    ensures result.Added? ==> match IndexOfName(products, name)
      case Some(k) => saved == Some(products[k := ProductRoute(name, route, color)])
      case None => saved == Some(products + [ProductRoute(name, route, color)])
  {
    var missing := MissingNodes(route, nodes);
    MissingNodesExactly(route, nodes);
    if missing != [] {
      assert missing[0] in route && missing[0] !in nodes;
      result, saved := Rejected(MissingNodesError, missing, NodeOrder.SortNodes(nodes)), None;
      return;
    }
    // overwrite the first record with the same name, if any
    var ps := products;
    var updated := false;
    var i := 0;
    while i < |ps|
      invariant i <= |ps| && ps == products
      invariant forall j :: 0 <= j < i ==> ps[j].name != name
    {
      if ps[i].name == name {
        ps := ps[i := ps[i].(route := route, color := color)];
        updated := true;
        break;
      }
      i := i + 1;
    }
    var p := ProductRoute(name, route, color);
    if updated {
      assert IndexOfName(products, name) == Some(i) by {
        var k := IndexOfName(products, name);
        assert k.Some?;
        assert !(k.value < i) && !(i < k.value);
      }
      UpsertOverwritesFirstMatch(products, p, i);
    } else {
      ps := ps + [p];
      UpsertAppends(products, p);
    }
    result, saved := Added, Some(ps);
  }

  // ---------------------------------------------------------------------
  // Removal and reset
  // ---------------------------------------------------------------------

  /** remove_product_route(label): the list without the records whose label is `name`. */
  function RemoveProductRoute(products: seq<ProductRoute>, name: string): (r: seq<ProductRoute>)
    ensures |r| <= |products|
  {
    if products == [] then []
    else (if products[0].name == name then [] else [products[0]]) + RemoveProductRoute(products[1..], name)
  }

  /** Records with another label are kept exactly as often as they occur; none with this label is. */
  lemma {:induction false} RemoveExactly(products: seq<ProductRoute>, name: string)
    ensures forall p :: p in RemoveProductRoute(products, name) <==> p in products && p.name != name
    ensures forall p: ProductRoute :: p.name != name ==>
      multiset(RemoveProductRoute(products, name))[p] == multiset(products)[p]
    ensures forall p: ProductRoute :: p.name == name ==> multiset(RemoveProductRoute(products, name))[p] == 0
  {
    if products != [] {
      RemoveExactly(products[1..], name);
      assert products == [products[0]] + products[1..];
    }
  }

  /** Removal commutes with concatenation: the kept records stay in their order. */
  lemma {:induction false} RemoveAppend(a: seq<ProductRoute>, b: seq<ProductRoute>, name: string)
    ensures RemoveProductRoute(a + b, name) == RemoveProductRoute(a, name) + RemoveProductRoute(b, name)
  {
    if a != [] {
      var head := if a[0].name == name then [] else [a[0]];
      assert (a + b)[0] == a[0] && (a + b)[1..] == a[1..] + b;
      RemoveAppend(a[1..], b, name);
      calc {
        RemoveProductRoute(a + b, name);
        head + RemoveProductRoute(a[1..] + b, name);
        head + (RemoveProductRoute(a[1..], name) + RemoveProductRoute(b, name));
        (head + RemoveProductRoute(a[1..], name)) + RemoveProductRoute(b, name);
      }
    } else {
      assert a + b == b;
    }
  }

  /** A list with no record carrying `name` is left as it is. */
  lemma {:induction false} RemoveAbsent(products: seq<ProductRoute>, name: string)
    requires forall j :: 0 <= j < |products| ==> products[j].name != name
    ensures RemoveProductRoute(products, name) == products
  {
    if products != [] {
      RemoveAbsent(products[1..], name);
      assert products == [products[0]] + products[1..];
    }
  }

  /** Removing a name twice gives the list removing it once gives. */
  lemma RemoveIdempotent(products: seq<ProductRoute>, name: string)
    ensures RemoveProductRoute(RemoveProductRoute(products, name), name) == RemoveProductRoute(products, name)
  {
    var once := RemoveProductRoute(products, name);
    RemoveExactly(products, name);
    forall j | 0 <= j < |once|
      ensures once[j].name != name
    {
      assert once[j] in once;
    }
    RemoveAbsent(once, name);
  }

  /** Removing a name undoes any upsert under that name. */
  lemma {:induction false} RemoveAfterUpsert(products: seq<ProductRoute>, p: ProductRoute)
    ensures RemoveProductRoute(Upsert(products, p), p.name) == RemoveProductRoute(products, p.name)
  {
    if products != [] {
      if products[0].name == p.name {
        assert ([p] + products[1..])[1..] == products[1..];
      } else {
        RemoveAfterUpsert(products[1..], p);
        assert ([products[0]] + Upsert(products[1..], p))[1..] == Upsert(products[1..], p);
      }
    }
  }

  /** reset_product_routes: the list saved is empty. */
  function ResetProductRoutes(): (r: seq<ProductRoute>)
    ensures |r| == 0
  {
    []
  }

  /** After a reset, adding a record leaves exactly that record. */
  lemma UpsertAfterReset(p: ProductRoute)
    ensures Upsert(ResetProductRoutes(), p) == [p]
  {
  }
}
