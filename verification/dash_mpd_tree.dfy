/** The parsed MPD as an abstract element tree, with the ElementTree lookups
    the manifest rewriter uses: attribute `get`, `find` and `findall` over the
    direct children, and the namespace of the root tag. Tags carry their
    namespace in braces, `{urn:mpeg:dash:schema:mpd:2011}Period`. */
module MpdTree {
  import opened Wrappers
  import opened Text

  datatype Element = Element(tag: string, attrs: map<string, string>, text: Option<string>, children: seq<Element>)

  /** `e.get(name)`. */
  function Attr(e: Element, name: string): (r: Option<string>)
    ensures r.Some? <==> name in e.attrs
    ensures r.Some? ==> r.value == e.attrs[name]
  {
    if name in e.attrs then Some(e.attrs[name]) else None
  }

  /** `e.get(name, default)`. */
  function AttrOr(e: Element, name: string, default: string): string {
    Attr(e, name).GetOr(default)
  }

  /** `e.findall(tag)`: the children with that tag, in document order. */
  function Tagged(children: seq<Element>, tag: string): (r: seq<Element>)
    ensures |r| <= |children|
    ensures forall i :: 0 <= i < |r| ==> r[i].tag == tag
    decreases |children|
  {
    if |children| == 0 then []
    else (if children[0].tag == tag then [children[0]] else []) + Tagged(children[1..], tag)
  }

  /** The children whose tag is not `tag`, in document order. */
  function Untagged(children: seq<Element>, tag: string): (r: seq<Element>)
    ensures |r| <= |children|
    ensures forall i :: 0 <= i < |r| ==> r[i].tag != tag
    decreases |children|
  {
    if |children| == 0 then []
    else (if children[0].tag != tag then [children[0]] else []) + Untagged(children[1..], tag)
  }

  /** No child carries `tag`. */
  predicate NoneTagged(children: seq<Element>, tag: string) {
    forall i :: 0 <= i < |children| ==> children[i].tag != tag
  }

  /** Looking at one more child in front. */
  lemma TaggedCons(c: Element, rest: seq<Element>, tag: string)
    ensures Tagged([c] + rest, tag) == (if c.tag == tag then [c] else []) + Tagged(rest, tag)
    ensures Untagged([c] + rest, tag) == (if c.tag != tag then [c] else []) + Untagged(rest, tag)
  {
    assert ([c] + rest)[1..] == rest;
  }

  /** Position of `e.find(tag)` among the children. */
  function FirstIndex(children: seq<Element>, tag: string): (r: Option<nat>)
    ensures r.None? <==> forall j :: 0 <= j < |children| ==> children[j].tag != tag
    ensures r.Some? ==> r.value < |children| && children[r.value].tag == tag
    ensures r.Some? ==> forall j :: 0 <= j < r.value ==> children[j].tag != tag
    decreases |children|
  {
    if |children| == 0 then None
    else if children[0].tag == tag then Some(0)
    else
      var k := FirstIndex(children[1..], tag);
      if k.None? then None else Some(k.value + 1)
  }

  /** `e.find(tag)` is the first of `e.findall(tag)`. */
  lemma {:induction false} FirstIndexTagged(children: seq<Element>, tag: string)
    ensures FirstIndex(children, tag).None? <==> |Tagged(children, tag)| == 0
    ensures FirstIndex(children, tag).Some? ==> Tagged(children, tag)[0] == children[FirstIndex(children, tag).value]
    decreases |children|
  {
    if |children| > 0 && children[0].tag != tag {
      FirstIndexTagged(children[1..], tag);
    }
  }

  /** `root.tag[1:root.tag.index('}')]`; `None` where `index` raises. */
  function Namespace(tag: string): (r: Option<string>)
    ensures r.None? <==> !HasChar(tag, '}')
    ensures r.Some? ==> !HasChar(r.value, '}')
  {
    var i := FindChar(tag, '}');
    if i == |tag| then None
    else if i == 0 then Some("")
    else Some(tag[1..i])
  }

  /** The tag of `local` in namespace `ns`. */
  function Qualified(ns: string, local: string): string {
    "{" + ns + "}" + local
  }

  /** The namespace of a qualified tag is the one it was built with. */
  lemma NamespaceQualified(ns: string, local: string)
    requires !HasChar(ns, '}')
    ensures Namespace(Qualified(ns, local)) == Some(ns)
  {
    var tag := Qualified(ns, local);
    assert tag == "{" + ns + ("}" + local);
    assert !HasChar("{" + ns, '}') by {
      forall j | 0 <= j < |"{" + ns| ensures ("{" + ns)[j] != '}' {
        if j > 0 { assert ("{" + ns)[j] == ns[j - 1]; }
      }
    }
    FindCharAppend("{" + ns, "}" + local, '}');
    assert FindChar(tag, '}') == |ns| + 1;
    assert tag[1..|ns| + 1] == ns;
  }
}
