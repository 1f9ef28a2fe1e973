/** An already-parsed XML document, and the few Groovy GPath queries the
    catalog extractor makes on it. A GPath result is a sequence of elements
    in document order; "empty" means the sequence is empty. */
module Xml {
  import opened Wrappers

  datatype Node = Elem(element: Element) | Text(text: string)

  datatype Element = Element(name: string, attrs: map<string, string>, children: seq<Node>)

  predicate IsChildNamed(n: Node, name: string) {
    n.Elem? && n.element.name == name
  }

  /** The element children of `ns` called `name`, in document order. */
  function NamedChildren(ns: seq<Node>, name: string): (r: seq<Element>)
    ensures |r| <= |ns|
  {
    if ns == [] then []
    else (if IsChildNamed(ns[0], name) then [ns[0].element] else []) + NamedChildren(ns[1..], name)
  }

  /** An element is among the named children exactly when it is a child
      element with that name. */
  lemma {:induction false} NamedChildrenMembers(ns: seq<Node>, name: string)
    ensures forall e :: e in NamedChildren(ns, name) <==> Elem(e) in ns && e.name == name
  {
    if ns != [] {
      NamedChildrenMembers(ns[1..], name);
      assert forall n :: n in ns <==> n == ns[0] || n in ns[1..];
    }
  }

  /** `getProperty(name)` on a GPath result: the children called `name` of
      every element in it, flattened in document order. */
  function Property(es: seq<Element>, name: string): seq<Element> {
    if es == [] then [] else NamedChildren(es[0].children, name) + Property(es[1..], name)
  }

  /** The result is empty exactly when no queried element has such a child,
      and everything in it carries the queried name. */
  lemma {:induction false} PropertyShape(es: seq<Element>, name: string)
    ensures forall e :: e in Property(es, name) ==> e.name == name
    ensures Property(es, name) == [] <==> forall i :: 0 <= i < |es| ==> NamedChildren(es[i].children, name) == []
  {
    if es != [] {
      PropertyShape(es[1..], name);
      NamedChildrenMembers(es[0].children, name);
      assert forall i :: 1 <= i < |es| ==> es[i] == es[1..][i - 1];
    }
  }

  /** Property distributes over concatenation of the queried elements. */
  lemma {:induction false} PropertyAppend(a: seq<Element>, b: seq<Element>, name: string)
    ensures Property(a + b, name) == Property(a, name) + Property(b, name)
  {
    if a != [] {
      assert (a + b)[1..] == a[1..] + b;
      PropertyAppend(a[1..], b, name);
    } else {
      assert a + b == b;
    }
  }

  /** `hasNode(parent, name)`: some element of `parent` has a child element
      called `name`. */
  function HasNode(parent: seq<Element>, name: string): bool {
    Property(parent, name) != []
  }

  /** `HasNode` holds exactly when some element of the result has an element
      child with that name. */
  lemma {:induction false} HasNodeMeaning(parent: seq<Element>, name: string)
    ensures HasNode(parent, name) <==> exists i, n :: 0 <= i < |parent| && n in parent[i].children && IsChildNamed(n, name)
  {
    PropertyShape(parent, name);
    if HasNode(parent, name) {
      var i :| 0 <= i < |parent| && NamedChildren(parent[i].children, name) != [];
      var e := NamedChildren(parent[i].children, name)[0];
      NamedChildrenMembers(parent[i].children, name);
      assert e in NamedChildren(parent[i].children, name);
      assert Elem(e) in parent[i].children && IsChildNamed(Elem(e), name);
    }
    if exists i, n :: 0 <= i < |parent| && n in parent[i].children && IsChildNamed(n, name) {
      var i, n :| 0 <= i < |parent| && n in parent[i].children && IsChildNamed(n, name);
      NamedChildrenMembers(parent[i].children, name);
      assert n.element in NamedChildren(parent[i].children, name);
    }
  }

  /** `text()`: all descendant text, concatenated in document order. */
  function NodeText(n: Node): string
    decreases n, 0
  {
    match n
    case Text(s) => s
    case Elem(e) => NodesText(e.children)
  }

  function NodesText(ns: seq<Node>): string
    decreases ns, 1
  {
    if ns == [] then "" else NodeText(ns[0]) + NodesText(ns[1..])
  }

  function ElementText(e: Element): string {
    NodesText(e.children)
  }

  /** `text()` on a GPath result: the texts of its elements, concatenated. */
  function ResultText(es: seq<Element>): string {
    if es == [] then "" else ElementText(es[0]) + ResultText(es[1..])
  }

  lemma {:induction false} ResultTextSingle(c: Element)
    ensures ResultText([c]) == ElementText(c)
  {
    assert [c][1..] == [];
    assert ElementText(c) + "" == ElementText(c);
  }

  /** `extractAttribute(node, name)`: the attribute's value, or null. */
  function ExtractAttribute(e: Element, name: string): (r: Option<string>)
    ensures r.Some? <==> name in e.attrs
    ensures r.Some? ==> r.value == e.attrs[name]
  {
    if name in e.attrs then Some(e.attrs[name]) else None
  }

  /** `extractChildText(node, name)`: null when `node` has no child element
      called `name`; otherwise the text of all such children. */
  function ExtractChildText(e: Element, name: string): Option<string> {
    var children := Property([e], name);
    if children != [] then Some(ResultText(children)) else None
  }

  /** The child text is null exactly when there is no such child; for a
      single such child it is that child's text, so a present but empty
      element gives the empty string rather than null. */
  lemma {:induction false} ExtractChildTextSpec(e: Element, name: string)
    ensures ExtractChildText(e, name).None? <==> forall n :: n in e.children ==> !IsChildNamed(n, name)
    ensures forall c :: NamedChildren(e.children, name) == [c] ==> ExtractChildText(e, name) == Some(ElementText(c))
  {
    var children := Property([e], name);
    assert [e][1..] == [];
    NamedChildrenMembers(e.children, name);
    assert Property([e][1..], name) == [];
    assert children == NamedChildren(e.children, name) + [];
    if children != [] {
      assert |children| == 1 ==> children == [children[0]];
      ResultTextSingle(children[0]);
    }
  }

  /** `getShopNode()`: the root element's `shop` children when there are any,
      else the `shop` children of its `yml_catalog` children, else null. */
  function ShopNode(root: Element): Option<seq<Element>> {
    var shop := Property([root], "shop");
    if shop != [] then
      Some(shop)
    else
      var catalogShop := Property(Property([root], "yml_catalog"), "shop");
      if catalogShop != [] then Some(catalogShop) else None
  }

  /** The shop lookup tries the two strategies in order and never yields an
      empty result: a direct `shop` child wins; failing that, a `shop` inside
      a `yml_catalog` child; failing both there is no shop (not an error). */
  lemma {:induction false} ShopNodeLookup(root: Element)
    ensures ShopNode(root).Some? ==>
              ShopNode(root).value != [] && forall e :: e in ShopNode(root).value ==> e.name == "shop"
    ensures HasNode([root], "shop") ==> ShopNode(root) == Some(Property([root], "shop"))
    ensures !HasNode([root], "shop") && HasNode(Property([root], "yml_catalog"), "shop") ==>
              ShopNode(root) == Some(Property(Property([root], "yml_catalog"), "shop"))
    ensures ShopNode(root).None? <==> !HasNode([root], "shop") && !HasNode(Property([root], "yml_catalog"), "shop")
  {
    PropertyShape([root], "shop");
    PropertyShape(Property([root], "yml_catalog"), "shop");
  }
}
