/**
 * The values that flow through the pipeline: a result set (the DataFrame built
 * from a warehouse cursor), the statements of a load, and the errors that the
 * pipeline raises.
 */
module Records {

  /** One cell of a fetched row. Floating-point cells are kept opaque: nothing computes with them. */
  datatype Cell = IntCell(i: int) | TextCell(s: string) | FloatCell(bits: nat) | NullCell

  type Row = seq<Cell>

  /** A materialised query result: column names and rows in the order the warehouse returned them. */
  datatype ResultSet = ResultSet(columns: seq<string>, rows: seq<Row>) {

    /** pandas' `DataFrame.empty`: true when either axis has length zero. */
    predicate Empty() {
      |rows| == 0 || |columns| == 0
    }
  }

  /** `pd.DataFrame()`: no rows and no columns. */
  const NoRows := ResultSet([], [])

  /** The statements of one load into the local store, in the order they run. */
  datatype LoadStep = Drop | Register | Create | Unregister | Count

  /** Why a stage raised. */
  datatype Failure =
    | SnowflakeNotConnected     // "Snowflake connection not established"
    | DuckdbNotConnected        // "DuckDB connection not established"
    | SessionClosed             // a statement sent over a connection that was already closed
    | QueryFailed(query: string)
    | StatementFailed(step: LoadStep)
    | CouldNotConnectSnowflake
    | CouldNotConnectDuckdb
    | NoTablesFound             // "No tables found in Snowflake schema"
}
