/**
 * The part of the W3C DOM the library touches: elements with a tag name,
 * attributes and child nodes, and text nodes.
 */
module Dom {

  datatype XmlNode =
    | Element(tag: string, attributes: map<string, string>, children: seq<XmlNode>)
    | Text(data: string)

  /** org.w3c.dom.Element */
  type XmlElement = n: XmlNode | n.Element? witness Element("a", map[], [])

  /** Node.hasChildNodes(): any child at all, text nodes included. */
  predicate HasChildNodes(e: XmlElement)
  {
    |e.children| > 0
  }

  /** Node.hasAttributes() */
  predicate HasAttributes(e: XmlElement)
  {
    |e.attributes| > 0
  }

  /** Node.getTextContent(): the node's descendant text, in document order. */
  function TextContent(n: XmlNode): string
    decreases n, 1
  {
    match n
    case Text(d) => d
    case Element(_, _, children) => NodesText(children)
  }

  function NodesText(nodes: seq<XmlNode>): string
    decreases nodes, 0
  {
    if nodes == [] then [] else TextContent(nodes[0]) + NodesText(nodes[1..])
  }

  /** The element children only, in order. */
  function ElementChildren(nodes: seq<XmlNode>): (r: seq<XmlElement>)
    ensures |r| <= |nodes|
    ensures forall n :: n in r <==> n in nodes && n.Element?
  {
    if nodes == [] then []
    else if nodes[0].Element? then [nodes[0]] + ElementChildren(nodes[1..])
    else ElementChildren(nodes[1..])
  }

  /** Node.setTextContent(text): every child is replaced by one text node, or by none for "". */
  function SetTextContent(e: XmlElement, text: string): (r: XmlElement)
    ensures r.tag == e.tag && r.attributes == e.attributes
    ensures TextContent(r) == text
    ensures ElementChildren(r.children) == []
  {
    var single := [Text(text)];
    assert NodesText(single) == text by {
      assert single[1..] == [];
    }
    e.(children := if text == [] then [] else single)
  }
}
