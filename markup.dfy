/**
 * The parsed report page: a tree of elements and text, and the two
 * queries the scraper uses on it, `find_all` (every matching descendant in
 * document order) and `find` (the first of those).
 */
module Markup {
  import opened Wrappers

  /**
   * A text leaf or an element. `classes` is the element's class list;
   * `attrs` holds its other attributes.
   */
  datatype Node =
    | Text(text: string)
    | Element(tag: string, classes: seq<string>, attrs: map<string, string>, children: seq<Node>)

  /** A tag name, optionally restricted to a class. */
  datatype Selector = Selector(tag: string, cls: Option<string>)

  /** A descendant together with its parent's attributes (`item.parent.attrs`). */
  datatype Hit = Hit(node: Node, parentAttrs: map<string, string>)

  /** The class attribute as written: the class names separated by spaces. */
  function JoinClasses(cs: seq<string>): string {
    if |cs| == 0 then ""
    else if |cs| == 1 then cs[0]
    else cs[0] + " " + JoinClasses(cs[1..])
  }

  /**
   * An element with the selector's tag whose class list contains the
   * wanted class, or whose whole class attribute equals it (that is how
   * "retina condition-icon" matches).
   */
  predicate Matches(n: Node, sel: Selector) {
    && n.Element?
    && n.tag == sel.tag
    && match sel.cls
       case None => true
       case Some(c) => c in n.classes || (n.classes != [] && JoinClasses(n.classes) == c)
  }

  /** Every node strictly below `n`, in document (pre-)order. */
  function Descendants(n: Node): seq<Hit>
    decreases n
  {
    match n
    case Text(_) => []
    case Element(_, _, attrs, children) => Below(attrs, children)
  }

  /** Every node in or below the forest `cs`, whose roots have parent attributes `attrs`. */
  function Below(attrs: map<string, string>, cs: seq<Node>): seq<Hit>
    decreases cs
  {
    if cs == [] then []
    else [Hit(cs[0], attrs)] + Descendants(cs[0]) + Below(attrs, cs[1..])
  }

  /** The hits of `hs` that match `sel`, in their original order. */
  function Select(hs: seq<Hit>, sel: Selector): seq<Hit> {
    if hs == [] then []
    else (if Matches(hs[0].node, sel) then [hs[0]] else []) + Select(hs[1..], sel)
  }

  /** `n.find_all(sel)`. */
  function FindAll(n: Node, sel: Selector): seq<Hit> {
    Select(Descendants(n), sel)
  }

  /** `n.find(sel)`: the first match, or None. */
  function Find(n: Node, sel: Selector): Option<Node> {
    var hs := FindAll(n, sel);
    if hs == [] then None else Some(hs[0].node)
  }

  /** `n.contents[0]`: the first child, or None where Python raises IndexError. */
  function FirstContent(n: Node): Option<Node> {
    if n.Element? && n.children != [] then Some(n.children[0]) else None
  }

  /** `n[key]` / `n.attrs[key]`, or None where Python raises KeyError. */
  function Attr(n: Node, key: string): Option<string> {
    if n.Element? && key in n.attrs then Some(n.attrs[key]) else None
  }

  /** Selecting keeps exactly the matching hits. */
  lemma {:induction false} SelectMembers(hs: seq<Hit>, sel: Selector)
    ensures |Select(hs, sel)| <= |hs|
    ensures forall h :: h in Select(hs, sel) <==> h in hs && Matches(h.node, sel)
  {
    if hs != [] {
      SelectMembers(hs[1..], sel);
      assert hs == [hs[0]] + hs[1..];
    }
  }

  /** A single hit is kept exactly when it matches. */
  lemma SelectSingleton(h: Hit, sel: Selector)
    ensures Select([h], sel) == if Matches(h.node, sel) then [h] else []
  {
  }

  /**
   * Selecting distributes over concatenation. With `SelectSingleton` this
   * makes `Select` the order-preserving filter: the kept hits stay in the
   * order of the input.
   */
  lemma {:induction false} SelectAppend(a: seq<Hit>, b: seq<Hit>, sel: Selector)
    ensures Select(a + b, sel) == Select(a, sel) + Select(b, sel)
  {
    if a != [] {
      assert (a + b)[1..] == a[1..] + b;
      SelectAppend(a[1..], b, sel);
    } else {
      assert a + b == b;
    }
  }

  /** Selecting keeps document order: the first selected hit has no match before it. */
  lemma {:induction false} SelectFirst(hs: seq<Hit>, sel: Selector)
    requires Select(hs, sel) != []
    ensures exists i :: 0 <= i < |hs| && hs[i] == Select(hs, sel)[0]
                        && forall j :: 0 <= j < i ==> !Matches(hs[j].node, sel)
  {
    if !Matches(hs[0].node, sel) {
      SelectFirst(hs[1..], sel);
      var i :| 0 <= i < |hs[1..]| && hs[1..][i] == Select(hs[1..], sel)[0]
                && forall j :: 0 <= j < i ==> !Matches(hs[1..][j].node, sel);
      assert hs[i + 1] == Select(hs, sel)[0];
      forall j | 0 <= j < i + 1 ensures !Matches(hs[j].node, sel) {
        if j > 0 { assert hs[j] == hs[1..][j - 1]; }
      }
    } else {
      assert hs[0] == Select(hs, sel)[0];
    }
  }

  /**
   * `find` returns the first matching descendant in document order, and
   * None exactly when no descendant matches.
   */
  lemma FindIsFirst(n: Node, sel: Selector)
    ensures Find(n, sel).None? <==> forall h :: h in Descendants(n) ==> !Matches(h.node, sel)
    ensures Find(n, sel).Some? ==>
              && Matches(Find(n, sel).value, sel)
              && exists i :: 0 <= i < |Descendants(n)| && Descendants(n)[i].node == Find(n, sel).value
                             && forall j :: 0 <= j < i ==> !Matches(Descendants(n)[j].node, sel)
  {
    var hs := FindAll(n, sel);
    SelectMembers(Descendants(n), sel);
    if hs != [] {
      assert hs[0] in hs;
      SelectFirst(Descendants(n), sel);
    }
  }
}
