/**
 * The element trees the handler reads and writes, and the three ElementTree queries
 * it uses on them: findall("tag") over the children, findall(".//tag") over all
 * descendants in document order, and findtext("tag").
 */
module Xml {
  import opened Wrappers

  /** An element: its tag, its attributes in order, its text (None when it has none) and its children in document order. */
  datatype Element = Element(tag: string, attributes: seq<(string, string)>, text: Option<string>, children: seq<Element>)

  /** The elements of cs whose tag is `tag`, in order. */
  function WithTag(cs: seq<Element>, tag: string): (r: seq<Element>)
    ensures |r| <= |cs|
    ensures forall k | 0 <= k < |r| :: r[k].tag == tag
    ensures forall x :: x in r <==> x in cs && x.tag == tag
  {
    if cs == [] then []
    else (if cs[0].tag == tag then [cs[0]] else []) + WithTag(cs[1..], tag)
  }

  /** e.findall(tag): the children of e with that tag, in document order. */
  function FindAll(e: Element, tag: string): (r: seq<Element>)
    ensures forall x :: x in r <==> x in e.children && x.tag == tag
  {
    WithTag(e.children, tag)
  }

  /** The first position at or after k of a child of e with that tag, if there is one. */
  function FirstWithTag(e: Element, tag: string, k: nat): (r: Option<nat>)
    requires k <= |e.children|
    ensures r.Some? ==> k <= r.value < |e.children| && e.children[r.value].tag == tag
    ensures r.Some? ==> forall j | k <= j < r.value :: e.children[j].tag != tag
    ensures r.None? ==> forall j | k <= j < |e.children| :: e.children[j].tag != tag
    decreases |e.children| - k
  {
    if k == |e.children| then None
    else if e.children[k].tag == tag then Some(k)
    else FirstWithTag(e, tag, k + 1)
  }

  /**
   * e.findtext(tag): None when no child has that tag, otherwise the text of the first such
   * child, with a child that has no text reading as "".
   */
  function FindText(e: Element, tag: string): (r: Option<string>)
    ensures r.None? <==> forall c | c in e.children :: c.tag != tag
    ensures r.Some? ==> exists k | 0 <= k < |e.children| ::
              e.children[k].tag == tag && r.value == e.children[k].text.GetOr("")
              && forall j | 0 <= j < k :: e.children[j].tag != tag
  {
    match FirstWithTag(e, tag, 0)
    case None => None
    case Some(k) => Some(e.children[k].text.GetOr(""))
  }

  /** Every element strictly below e, in document (pre-)order. */
  function Descendants(e: Element): (r: seq<Element>)
    decreases e, 1
  {
    DescendantsFrom(e, 0)
  }

  /** The children of e from the k-th on, each followed by its own descendants. */
  function DescendantsFrom(e: Element, k: nat): (r: seq<Element>)
    requires k <= |e.children|
    decreases e, 0, |e.children| - k
  {
    if k == |e.children| then []
    else [e.children[k]] + Descendants(e.children[k]) + DescendantsFrom(e, k + 1)
  }

  /** e.findall(".//" + tag): the descendants of e with that tag, in document order. */
  function FindAllDeep(e: Element, tag: string): (r: seq<Element>)
    ensures forall x :: x in r <==> x in Descendants(e) && x.tag == tag
  {
    WithTag(Descendants(e), tag)
  }

  /** x lies below e exactly when it is a child of e or lies below one. */
  lemma DescendantsMember(e: Element, x: Element)
    ensures x in Descendants(e) <==>
              exists k | 0 <= k < |e.children| :: x == e.children[k] || x in Descendants(e.children[k])
  {
    DescendantsFromMember(e, 0, x);
  }

  lemma {:induction false} DescendantsFromMember(e: Element, k: nat, x: Element)
    requires k <= |e.children|
    ensures x in DescendantsFrom(e, k) <==>
              exists j | k <= j < |e.children| :: x == e.children[j] || x in Descendants(e.children[j])
    decreases |e.children| - k
  {
    if k < |e.children| {
      DescendantsFromMember(e, k + 1, x);
    }
  }

  /** The children found by findall(tag) are among those found by findall(".//tag"). */
  lemma FindAllInDeep(e: Element, tag: string)
    ensures forall x | x in FindAll(e, tag) :: x in FindAllDeep(e, tag)
  {
    forall x | x in FindAll(e, tag) ensures x in Descendants(e) {
      var k :| 0 <= k < |e.children| && e.children[k] == x;
      DescendantsMember(e, x);
    }
  }

  /** Everything below a child of e is also below e: the deep search reaches any depth. */
  lemma DeepReachesGrandchildren(e: Element, k: nat, tag: string)
    requires k < |e.children|
    ensures forall x | x in FindAllDeep(e.children[k], tag) :: x in FindAllDeep(e, tag)
  {
    forall x | x in FindAllDeep(e.children[k], tag) ensures x in Descendants(e) {
      DescendantsMember(e, x);
    }
  }

  /** Selecting by tag splits over concatenation. */
  lemma {:induction false} WithTagAppend(a: seq<Element>, b: seq<Element>, tag: string)
    ensures WithTag(a + b, tag) == WithTag(a, tag) + WithTag(b, tag)
    decreases |a|
  {
    if a != [] {
      assert (a + b)[0] == a[0] && (a + b)[1..] == a[1..] + b;
      WithTagAppend(a[1..], b, tag);
    } else {
      assert a + b == b;
    }
  }
}
