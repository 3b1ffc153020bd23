/** The graph entities the loader builds and the graph endpoint reads: isolates,
    orthogroups and genes, with the properties those two read or write. Every
    `String` or boxed number the database may leave unset is an `Option`. */
module Domain {
  import opened Wrappers
  import opened JavaLang

  datatype Isolate = Isolate(
    name: JString,
    originCountry: JString,
    host: JString,
    collectionDate: JString)

  datatype Orthogroup = Orthogroup(
    groupId: string,             // the entity id, never null
    geneCount: Option<int>)      // a boxed Integer

  datatype Gene = Gene(
    geneId: string,              // the entity id, never null
    symbol: JString,
    biotype: JString,
    description: JString,
    start: int,
    end: int,
    strand: JString,
    orthogroup: Option<Orthogroup>,
    isolate: Option<Isolate>)
}
