/** The documentation model: domains, tables and what their documents declare. */
module Models {
  datatype Resolution = Undecided | Local | Conformed | Unresolved | Narrative

  datatype Domain = Domain(id: string, title: string, description: string)

  datatype Column = Column(name: string, kind: string, description: string, isPk: bool, isFk: bool)

  datatype ColumnLineage = ColumnLineage(column: string, sourceTable: string, sourceColumn: string, notes: string,
                                         derived: bool)

  datatype Relationship = Relationship(
    fromTableId: string, toTableId: string, targetRef: string, fromColumn: string, toColumn: string,
    joinKeyRaw: string, cardinality: string, resolution: Resolution, candidates: seq<string>)

  datatype Table = Table(
    id: string, name: string, domainId: string, domainLabel: string, kindRaw: string,
    kind: string, grain: string, updateFrequency: string, layer: string, description: string,
    conformed: bool, conformedIn: seq<string>,
    columns: seq<Column>, columnLineage: seq<ColumnLineage>, relationships: seq<Relationship>)

  datatype Model = Model(domains: seq<Domain>, tables: seq<Table>)

  function ResolutionName(r: Resolution): string {
    match r
    case Undecided => ""
    case Local => "local"
    case Conformed => "conformed"
    case Unresolved => "unresolved"
    case Narrative => "narrative"
  }
}
