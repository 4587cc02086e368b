/**
  The query result the core works on, as the Overpass client hands it over:
  nodes and relations with their tags. The client keeps them in maps; here
  they are sequences, and every pass over them visits them in the same order.
*/
module Osm {
  import opened GoStrings

  /** A node: identifier, coordinates (both 0 for a node without a location) and tags. */
  datatype Node = Node(id: int, lat: real, lon: real, tags: map<string, string>)

  /** A relation member: its role and the identifier of the node it refers to. */
  datatype Member = Member(role: string, node: int)

  /** A relation: identifier, tags and members in order. */
  datatype Relation = Relation(id: int, tags: map<string, string>, members: seq<Member>)

  /** A query result. */
  datatype Result = Result(nodes: seq<Node>, relations: seq<Relation>)

  /** `Tags[key]`, "" when the tag is absent. */
  function Tag(tags: map<string, string>, key: string): string {
    Index(tags, key)
  }

  /** The test `Lat != 0 || Lon != 0` the core uses to skip nodes without a location. */
  predicate HasLocation(n: Node) {
    n.lat != 0.0 || n.lon != 0.0
  }
}
