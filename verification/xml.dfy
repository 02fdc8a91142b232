/**
 * The parsed XML document as ElementTree presents it: an element has a tag,
 * an attribute map and its child elements in document order.
 */
module Xml {

  datatype Element = Element(tag: string, attrs: map<string, string>, children: seq<Element>)

  /** What reading an artifact path yields: no file, a file that does not parse, or its root element. */
  datatype XmlSource = Missing | Unparsable | Document(root: Element)

  /** `e.get(key, default)`. */
  function Get(e: Element, key: string, default: string): string {
    if key in e.attrs then e.attrs[key] else default
  }

  /** Those of `es` with tag `tag`, in order. */
  function WithTag(es: seq<Element>, tag: string): (r: seq<Element>)
    ensures forall c :: c in r <==> c in es && c.tag == tag
  {
    if es == [] then []
    else WithTag(es[..|es| - 1], tag) + (if es[|es| - 1].tag == tag then [es[|es| - 1]] else [])
  }

  /** `e.findall(tag)`: the direct children of `e` with that tag, in document order. */
  function FindAll(e: Element, tag: string): (r: seq<Element>)
    ensures forall c :: c in r <==> c in e.children && c.tag == tag
  {
    WithTag(e.children, tag)
  }

  /** The indices of the elements of `es` with tag `tag`, in increasing order. */
  function TagIndices(es: seq<Element>, tag: string): (ps: seq<nat>)
    ensures forall k :: 0 <= k < |ps| ==> ps[k] < |es| && es[ps[k]].tag == tag
    ensures forall k, m :: 0 <= k < m < |ps| ==> ps[k] < ps[m]
    ensures forall i :: 0 <= i < |es| && es[i].tag == tag ==> i in ps
  {
    if es == [] then []
    else
      var n := |es| - 1;
      var front := TagIndices(es[..n], tag);
      assert forall i :: 0 <= i < n ==> es[..n][i] == es[i];
      front + if es[n].tag == tag then [n] else []
  }

  /**
   * `WithTag` keeps one entry per element with the tag, in the order of `es`:
   * its k-th entry is the element at the k-th such index.
   */
  lemma {:induction false} WithTagAtIndices(es: seq<Element>, tag: string)
    ensures |WithTag(es, tag)| == |TagIndices(es, tag)|
    ensures forall k :: 0 <= k < |WithTag(es, tag)| ==> WithTag(es, tag)[k] == es[TagIndices(es, tag)[k]]
  {
    if es != [] {
      var n := |es| - 1;
      WithTagAtIndices(es[..n], tag);
      var r, ps := WithTag(es, tag), TagIndices(es, tag);
      var front := TagIndices(es[..n], tag);
      forall k | 0 <= k < |r| ensures r[k] == es[ps[k]] {
        if k < |front| {
          assert ps[k] == front[k] && es[..n][front[k]] == es[front[k]];
        }
      }
    }
  }

  /** `findall` lists the children with the tag once each, in document order. */
  lemma FindAllInOrder(e: Element, tag: string)
    ensures var r, ps := FindAll(e, tag), TagIndices(e.children, tag);
      |r| == |ps| && forall k :: 0 <= k < |r| ==> r[k] == e.children[ps[k]]
  {
    WithTagAtIndices(e.children, tag);
  }

  /** `e.find(tag) is not None`: some direct child of `e` has that tag. */
  predicate HasChild(e: Element, tag: string) {
    exists i :: 0 <= i < |e.children| && e.children[i].tag == tag
  }
}
