/** Values exchanged between the checker's steps, and the two external
    services it reads from, reduced to what the checker observes of them. */
module Types {

  datatype Option<T> = None | Some(value: T)

  /** One result row as the warehouse returns it: fields 0, 1 and 2 are
      the expected name, its platform and the observed count. */
  datatype Row = Row(name: string, platform: string, count: int)

  /** An expected (name, platform) cell reported as missing. */
  type Pair = (string, string)

  /** The dictionary built from the result rows: three parallel lists
      under the keys 'events', 'platform' and 'count'. */
  datatype Table = Table(events: seq<string>, platform: seq<string>, count: seq<int>)

  /** The first sheet of the whitelist spreadsheet: either it cannot be
      opened (credentials, network, unknown URL), or it can, and its
      first and second columns hold the expected event and screen names. */
  datatype Sheet = Unreachable | Opened(col1: seq<string>, col2: seq<string>)

  /** What running one query text on the warehouse yields: its rows, in
      the order the warehouse returns them, or a raised exception. */
  datatype Execution = Rows(rows: seq<Row>) | Raises

  /** Everything one invocation reads from outside: the spreadsheet, the
      configured source table name, and the warehouse as a function from
      query text to outcome. */
  datatype Env = Env(sheet: Sheet, source: string, backend: string -> Execution)

  /** What get_query_results hands back: the empty dictionary when the
      whitelist is empty, the three-list dictionary, or an exception. */
  datatype QueryResult = NoData | Data(table: Table) | Raised
}
