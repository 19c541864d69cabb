/** Index definitions as the advisor reads them from the catalog.  Column and index names are
    case-folded, so that equality is the advisor's comparison of names. */
module IndexModel {
  import opened Wrappers

  type Column = string

  datatype Direction = Ascending | Descending

  datatype Key = Key(column: Column, direction: Direction)

  datatype Index = Index(
    name: string,
    typeCode: int,
    keys: seq<Key>,
    includes: seq<Column>,
    filter: string,                 // folded filter text, empty when there is none
    isDisabled: bool,
    isHypothetical: bool,
    isPrimaryKey: bool,
    isUniqueConstraint: bool,
    isUnique: bool,
    otherProtection: bool,          // referenced foreign keys, partition switch, indexed view, auto-created
    childForeignKeys: set<int>,     // foreign keys whose columns lead the keys
    readCount: Option<nat>,         // none when the usage view has no row
    updates: nat,
    ageDays: Option<real>
  )

  const CLUSTERED := 1
  const NONCLUSTERED := 2

  datatype ColumnInfo = ColumnInfo(width: nat, isLob: bool)

  /** The columns of one table; `rowWidth` is the sum of the widths of its non-LOB columns. */
  datatype Catalog = Catalog(columns: map<Column, ColumnInfo>, rowWidth: nat)

  function Names(keys: seq<Key>): (names: seq<Column>)
    ensures |names| == |keys|
    ensures forall i :: 0 <= i < |keys| ==> names[i] == keys[i].column
  {
    seq(|keys|, i requires 0 <= i < |keys| => keys[i].column)
  }

  function NameSet(keys: seq<Key>): set<Column> { set c | c in Names(keys) }

  /** The first keys are these, in the same directions. */
  predicate Begins(keys: seq<Key>, front: seq<Key>) {
    |front| <= |keys| && forall i :: 0 <= i < |front| ==> keys[i] == front[i]
  }

  predicate NamesColumn(keys: seq<Key>, column: Column) { exists i :: 0 <= i < |keys| && keys[i].column == column }

  lemma BeginsIsPrefix(keys: seq<Key>, front: seq<Key>)
    ensures Begins(keys, front) <==> front <= keys
  {
    if Begins(keys, front) {
      assert keys[..|front|] == front;
    }
  }

  lemma NamesColumnIsInNames(keys: seq<Key>, column: Column)
    ensures NamesColumn(keys, column) <==> column in NameSet(keys)
  {
    if column in NameSet(keys) {
      var i :| 0 <= i < |keys| && Names(keys)[i] == column;
      assert keys[i].column == column;
    }
    if i :| 0 <= i < |keys| && keys[i].column == column {
      assert Names(keys)[i] == column;
    }
  }

  function ColumnSet(columns: seq<Column>): set<Column> { set c | c in columns }

  predicate DistinctNames(indexes: seq<Index>) {
    forall i, j :: 0 <= i < j < |indexes| ==> indexes[i].name != indexes[j].name
  }

  /** Every column the leaf rows of the index carry, the clustering key included. */
  function Carried(index: Index, clustering: seq<Column>): set<Column> {
    NameSet(index.keys) + ColumnSet(index.includes) + ColumnSet(clustering)
  }

  function ColumnWidth(column: Column, catalog: Catalog): nat {
    if column in catalog.columns then catalog.columns[column].width else 0
  }

  function Width(columns: seq<Column>, catalog: Catalog): nat {
    if columns == [] then 0 else ColumnWidth(columns[0], catalog) + Width(columns[1..], catalog)
  }

  /** More than four included columns that hold more than 60% of the row. */
  predicate TooWide(includes: seq<Column>, catalog: Catalog) {
    && catalog.columns != map[] && includes != []
    && catalog.rowWidth > 0 && 10 * Width(includes, catalog) > 6 * catalog.rowWidth && |includes| > 4
  }

  /** An index covers a request when its keys start with the requested keys and its rows carry
      the requested columns; the clustered index carries every column. */
  predicate Covers(index: Index, keys: seq<Key>, includes: seq<Column>, clustering: seq<Column>) {
    && index.filter == ""
    && keys <= index.keys
    && (index.typeCode == CLUSTERED || ColumnSet(includes) <= Carried(index, clustering))
  }

  /** The keys of the enabled clustered index; they are part of every nonclustered row. */
  function ClusteringKeys(existing: seq<Index>): seq<Column> {
    if existing == [] then []
    else if existing[0].typeCode == CLUSTERED && !existing[0].isDisabled then Names(existing[0].keys)
    else ClusteringKeys(existing[1..])
  }

  method FindClusteringKeys(existing: seq<Index>) returns (columns: seq<Column>)
    ensures columns == ClusteringKeys(existing)
  {
    for i := 0 to |existing|
      invariant ClusteringKeys(existing) == ClusteringKeys(existing[i..])
    {
      assert existing[i..][0] == existing[i] && existing[i..][1..] == existing[i + 1..];
      if existing[i].typeCode == CLUSTERED && !existing[i].isDisabled {
        return Names(existing[i].keys);
      }
    }
    columns := [];
  }
}
