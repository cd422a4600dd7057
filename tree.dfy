/**
 * The OpenDocument content tree the renderer walks: element nodes (the
 * `nodeType == 1` case) with their attributes and children, and text nodes
 * (`nodeType == 3`). Attributes are kept by local name, in document order.
 */
module Tree {
  import opened Wrappers

  datatype Node =
    | Element(local: string, attrs: seq<(string, string)>, children: seq<Node>)
    | Text(data: string)

  /** The value of the first attribute whose local name is `name`, if there is one. */
  function AttributeValue(attrs: seq<(string, string)>, name: string): (r: Option<string>)
    ensures r.None? <==> forall i :: 0 <= i < |attrs| ==> attrs[i].0 != name
    ensures r.Some? ==>
      exists i :: 0 <= i < |attrs| && attrs[i] == (name, r.value) && (forall j :: 0 <= j < i ==> attrs[j].0 != name)
  {
    if |attrs| == 0 then None
    else if attrs[0].0 == name then Some(attrs[0].1)
    else AttributeValue(attrs[1..], name)
  }

  /** Scans the attributes in order and stops at the first one with the wanted local name. */
  method NodeGetAttributeValue(n: Node, attr: string) returns (value: Option<string>)
    requires n.Element?
    ensures value == AttributeValue(n.attrs, attr)
  {
    value := None;
    var i := 0;
    while i < |n.attrs|
      invariant 0 <= i <= |n.attrs|
      invariant AttributeValue(n.attrs, attr) == AttributeValue(n.attrs[i..], attr)
    {
      if n.attrs[i].0 == attr {
        value := Some(n.attrs[i].1);
        return;
      }
      assert n.attrs[i..][1..] == n.attrs[i + 1..];
      i := i + 1;
    }
  }
}
