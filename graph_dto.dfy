/** The JSON document the graph endpoint returns (`GraphDto`): nodes with an id, a
    display name, a type, a size, a description and a details map, and links
    between node ids. */
module Dto {
  import opened JavaLang

  datatype NodeDto = NodeDto(
    id: string,
    name: JString,
    nodeType: string,
    val: int,                          // the display size
    description: JString,
    details: map<string, JString>)     // a HashMap, which admits null values

  datatype LinkDto = LinkDto(source: string, target: string, relation: string)   // `relation` is the `label` property

  datatype GraphDto = GraphDto(nodes: seq<NodeDto>, links: seq<LinkDto>)
}
