/** Table descriptions and the cache of them that one replication session keeps. */
module Schema {
  import opened Prelude

  /** Text as its UTF-8 bytes. */
  type Text = seq<u8>

  datatype Column = Column(isKey: bool, name: Text, typeOid: u32, atttypmod: i32)

  datatype Relation = Relation(id: u32, namespace: Text, name: Text, replicaIdentity: u8, columns: seq<Column>)

  class RelationCache {
    var byId: map<u32, Relation>

    constructor ()
      ensures byId == map[]
    {
      byId := map[];
    }

    /** A repeated RELATION for a known id replaces the entry and touches no other. */
    method Put(relation: Relation)
      modifies this
      ensures byId == old(byId)[relation.id := relation]
      ensures forall id :: id in byId && id != relation.id ==> id in old(byId) && byId[id] == old(byId[id])
      ensures byId.Keys == old(byId.Keys) + {relation.id}
    {
      byId := byId[relation.id := relation];
    }

    function Get(id: u32): (r: Option<Relation>)
      reads this
      ensures r.Some? <==> id in byId
      ensures r.Some? ==> r.value == byId[id]
    {
      if id in byId then Some(byId[id]) else None
    }

    method Clear()
      modifies this
      ensures byId == map[]
      ensures forall id :: Get(id) == None
    {
      byId := map[];
    }
  }
}
