/** Fixed limits and the base dataset. */
module Constants {
  import opened SchemaUtils

  /** A node may sit at depth 0 to MAX_TREE_DEPTH - 1. */
  const MAX_TREE_DEPTH: nat := 5
  const MAX_TOTAL_NODES: nat := 10

  const DEFAULT_PAGE_SIZE: nat := 100

  /** The relation a chain's root reads from. */
  const BASE_TABLE := "h1b"

  const BASE_SCHEMA: Schema := [
    Column("EMPLOYER_NAME", VARCHAR),
    Column("JOB_TITLE", VARCHAR),
    Column("WORKSITE_STATE", VARCHAR),
    Column("WORKSITE_CITY", VARCHAR),
    Column("WAGE_RATE_OF_PAY_FROM", DOUBLE),
    Column("CASE_STATUS", VARCHAR),
    Column("NEW_EMPLOYMENT", INTEGER),
    Column("CONTINUED_EMPLOYMENT", INTEGER),
    Column("TOTAL_WORKER_POSITIONS", INTEGER)
  ]
}
