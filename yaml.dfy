/**
 * The part of the yaml.v3 node model the CSV object decoder touches:
 * a node's kind, tag, scalar value and ordered children.
 */
module Yaml {

  import opened Wrappers

  /** yaml.v3 node kinds; `Unset` is the zero value of a freshly declared node. */
  datatype Kind = Unset | Document | Sequence | Mapping | Scalar | Alias

  datatype Node = Node(kind: Kind, tag: string, value: string, content: seq<Node>)

  /**
   * The nested-value parser (`parseSnippet`): it either yields a node or
   * fails, and the decoder only looks at which of the two happened.
   */
  type SnippetParser = string -> Option<Node>

  /**
   * `createScalarNode(text, text)` with a Go string as the typed value:
   * a string-tagged scalar leaf whose value is exactly the text.
   */
  function CreateScalarNode(text: string): (n: Node)
    ensures n.kind == Scalar && n.tag == "!!str" && n.value == text && n.content == []
  {
    Node(Scalar, "!!str", text, [])
  }

  /** The `*yaml.Node` the caller hands to `Decode`, which updates it in place. */
  class YamlNode {
    var kind: Kind
    var tag: string
    var value: string
    var content: seq<Node>

    constructor ()
      ensures kind == Unset && tag == "" && value == "" && content == []
    {
      kind, tag, value, content := Unset, "", "", [];
    }
  }
}
