/** The part of an ElementTree document the feed code builds: tags, attributes in
    insertion order, optional text and ordered children. */
module ElementTree {
  import opened Wrappers

  /** A tag in Clark notation `{ns}local`; `ns == ""` is a tag without a namespace. */
  datatype QName = QName(ns: string, local: string)

  datatype Element = Element(tag: QName, attrs: seq<(string, string)>, text: Option<string>, children: seq<Element>)

  function Plain(local: string): QName {
    QName("", local)
  }

  /** An element whose `.text` is assigned and that has no attributes and no children. */
  function TextElement(tag: QName, text: string): Element {
    Element(tag, [], Some(text), [])
  }

  /** An element carrying only attributes. */
  function EmptyElement(tag: QName, attrs: seq<(string, string)>): Element {
    Element(tag, attrs, None, [])
  }

  /** The tags of `es`, in document order. */
  function Tags(es: seq<Element>): seq<QName> {
    seq(|es|, i requires 0 <= i < |es| => es[i].tag)
  }

  /** The value of attribute `name`, as `element.get(name)` reads it. */
  function Attr(attrs: seq<(string, string)>, name: string): (r: Option<string>)
    ensures r.Some? <==> exists i :: 0 <= i < |attrs| && attrs[i].0 == name
    ensures r.Some? ==> (name, r.value) in attrs
    decreases |attrs|
  {
    if attrs == [] then None
    else if attrs[0].0 == name then Some(attrs[0].1)
    else Attr(attrs[1..], name)
  }
}
