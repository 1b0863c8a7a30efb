# Node-chain query compositor, in Dafny

This project models the core of a browser tool for exploring an H-1B visa dataset. The user builds a
tree of query steps. Each step (a *node*) holds a SQL fragment that reads from the
placeholder `{parent}` and produces an output shape (a list of typed columns). Selecting a
node runs its whole ancestor chain as one query: every node on the chain becomes a
`node_<id> AS (...)` entry of a `WITH` list reading from the entry before it, and the
first reads from the base table `h1b`. The outer query adds the filter panel's WHERE
clause, the sort and the page. A twin query counts the rows.

Four parts are modelled:

- **Shapes** (`SchemaUtils`): equality, the prompt text, type inference, and the column
  selections by type.
- **Node store** (`NodeTree`, `TreeStore`): the flat id-to-node map with parent
  links, the active node and the AI-mode flag. Covers the limits on node count and
  depth, add, update (with stale marking of every strict descendant when the shape
  changes), delete, the setters, and the tree queries. `TreeStore.Tree` is a class whose
  methods change its fields in place. A ghost `rank` proves that parent walks end.
- **Query builder** (`SqlBuilder`, `SqlLiterals`, `Strings`): the chain walk, the
  `WITH` list with `{parent}` substitution, the WHERE, ORDER BY and LIMIT clauses, the
  data and count queries, and the validation query for a proposed node. The employer
  and job-title literals double their quotes, following section 5.3 of ISO/IEC 9075-2.
  A reader proves that the doubling can be undone.
- **Filter panel** (`Filters`): the filter record, setting one field, toggling a list
  member, reset, and the active-field summary. `Filters.FilterStore` is a class over
  the record.

`Constants` holds the limits, the base table name and the base shape
(`src/utils/constants.js:2-20`). `Wrappers.Option` stands for `null`/`undefined`.

The model follows the code in a few places where a reader might expect something else:

- `deleteNode` makes the deleted leaf's parent active whichever node was active, not
  only when the deleted node was the active one.
- The employer and job-title search texts count as active filters but build no
  condition in the WHERE clause; they only narrow the employer and job-title dropdown
  lists (`src/components/Filters.jsx:24-35`), which this model leaves out.
- `state` and `status` go between quotes without doubling their quotes, unlike the two
  lists. `SqlBuilder.RawValueEndsEarly` and `SqlBuilder.RawValueUnterminated` show what
  such a value does to the literal.
- `getParentSchema` falls back to the base shape for a missing parent, or a parent
  whose shape is `null`, as well as for no parent.
- `schemasEqual` is false when either side is `null`, even when both are.

## Model

| member | source | states |
|---|---|---|
| SchemaUtils.InferType | src/services/schemaUtils.js:17-25 | null and undefined give VARCHAR; an integral number gives INTEGER and only then; a non-integral number gives DOUBLE; a bigint gives BIGINT; a boolean gives BOOLEAN; every other value gives VARCHAR |
| SchemaUtils.ExtractSchemaFromResult | src/services/schemaUtils.js:4-12 | a missing or empty result gives no columns; otherwise one column per key of the first row, in key order, named by the key and typed by `inferType` of its value |
| SchemaUtils.SchemasEqual | src/services/schemaUtils.js:30-37 | true exactly when both shapes are present and equal as sequences (same length, same name and type at every index); a missing shape equals nothing |
| SchemaUtils.SchemasEqualOrderSensitive | src/services/schemaUtils.js:34-36 | exchanging any two different columns of any shape gives a shape unequal to it, while a shape equals itself |
| SchemaUtils.SchemaToPromptContext | src/services/schemaUtils.js:42-46 | a missing or empty shape renders as "No columns available"; a one-column shape renders as that column's "name (TYPE)" |
| SchemaUtils.PromptContextAppend | src/services/schemaUtils.js:45 | adding a column at the end adds ", name (TYPE)" at the end of the text, so the items appear in column order |
| SchemaUtils.PromptContextLength | src/services/schemaUtils.js:45 | the text of n columns is the n items plus n - 1 separators of two characters |
| SchemaUtils.GetStringColumns | src/services/schemaUtils.js:51-55 | a name is in the result exactly when some VARCHAR column has it; never longer than the shape |
| SchemaUtils.GetNumericColumns | src/services/schemaUtils.js:60-64 | a name is in the result exactly when some INTEGER, DOUBLE or BIGINT column has it; never longer than the shape |
| SchemaUtils.NamesOfTypeConcat | src/services/schemaUtils.js:52-54 | selecting by type keeps column order: it distributes over concatenation of shapes |
| SchemaUtils.InferredNumericColumns | src/services/schemaUtils.js:60-64 | on a shape inferred from a row, the numeric columns are the keys whose values are numbers or bigints, in key order |
| NodeTree.Children | src/hooks/useTree.js:134-136 | a node is a child of `parentId` exactly when it is in the map and its parent is `parentId` |
| NodeTree.IsLeaf | src/hooks/useTree.js:130-132 | a node is a leaf exactly when it has no children |
| NodeTree.HasDescendants | src/hooks/useTree.js:138-144 | true exactly when some node of the map has this node as its parent |
| NodeTree.HasDescendantsIsNotLeaf | src/hooks/useTree.js:130-144 | `hasDescendants` is exactly the negation of `isLeaf` |
| NodeTree.ShallowTestIsDeep | src/hooks/useTree.js:138-144 | on a tree whose parent walks end, the direct-children test agrees with "some node descends from it" |
| NodeTree.ParentSchema | src/hooks/useTree.js:125-128 | no parent, a missing parent or a parent with no shape gives the base shape; otherwise the parent's shape |
| NodeTree.MarkStale | src/hooks/useTree.js:71-79 | the result is the input map with exactly the strict descendants of the node flagged stale |
| NodeTree.StaleMarkedShape | src/hooks/useTree.js:71-79 | stale marking keeps every key, every id and every parent link |
| NodeTree.InsertNode | src/hooks/useTree.js:49-56 | inserting a fresh node keeps the map well formed, keeps every existing depth, and gives the node its parent's depth + 1 (0 for a root) |
| TreeStore.Tree.constructor | src/hooks/useTree.js:6 | the tree starts empty, with no active node and AI mode off |
| TreeStore.Tree.GetNodeDepth | src/hooks/useTree.js:28-36 | the loop's count is the number of truthy parent links followed from the node |
| TreeStore.Tree.CanAddNode | src/hooks/useTree.js:40-45 | refused exactly when there are at least 10 nodes or the prospective depth is at least 5; the node-count reason takes precedence over the depth reason |
| TreeStore.AllowedAddStaysWithinLimits | src/hooks/useTree.js:40-45 | a node that is allowed keeps the store at no more than 10 nodes, and the new node's depth below 5 |
| TreeStore.Tree.AddNode | src/hooks/useTree.js:47-58 | exactly one node is added (given fields, not stale, no error); it becomes active; every other node and every existing depth stay as they were; its depth is the one `canAddNode` predicted |
| TreeStore.Tree.UpdateNode | src/hooks/useTree.js:60-84 | a missing id changes nothing; otherwise the node gets the new prompt, SQL and shape with the error cleared, keeping its parent and stale flag; when the shapes differ, every strict descendant is flagged stale and no other node changes; when they are equal, no other node changes |
| TreeStore.Tree.DeleteNode | src/hooks/useTree.js:86-99 | a missing node or one with a child changes nothing; a leaf is removed, nothing else is, and its parent becomes active |
| TreeStore.Tree.SetActiveNode | src/hooks/useTree.js:101-103 | only the active id changes |
| TreeStore.Tree.SetNodeError | src/hooks/useTree.js:105-113 | only the node's error changes |
| TreeStore.Tree.ClearNodeStale | src/hooks/useTree.js:115-123 | only the node's stale flag changes, to false |
| TreeStore.Tree.SetAiMode | src/hooks/useTree.js:12 | only the AI-mode flag changes |
| TreeStore.Tree.ResetTree | src/hooks/useTree.js:146-149 | empty map, no active node, AI mode off, from any state |
| Filters.Set | src/hooks/useFilters.js:18-20 | the chosen field reads back as the new value and every other field is unchanged |
| Filters.SetLaws | src/hooks/useFilters.js:18-20 | setting a field to its own value changes nothing; of two settings of one field, the last wins |
| Filters.FilterStore.constructor | src/hooks/useFilters.js:16 | the store starts at the defaults |
| Filters.FilterStore.UpdateFilter | src/hooks/useFilters.js:18-20 | the record becomes the old one with that field set |
| Filters.FilterStore.ToggleArrayFilter | src/hooks/useFilters.js:22-29 | the chosen list becomes its toggle by the value; the other fields are unchanged |
| Filters.Remove | src/hooks/useFilters.js:26 | the value no longer occurs, every other value's membership is kept, and the list does not grow |
| Filters.ToggleFlips | src/hooks/useFilters.js:22-29 | toggling flips the membership of the value and of no other value |
| Filters.ToggleTwiceAbsent | src/hooks/useFilters.js:22-29 | toggling an absent value twice gives back the original list |
| Filters.FilterStore.ResetFilters | src/hooks/useFilters.js:31-33 | the record becomes the defaults, from any state, and no filter is active |
| Filters.DefaultsInactive | src/hooks/useFilters.js:3-13 | no field of the defaults is in use |
| Filters.ActiveFilters | src/hooks/useFilters.js:35-42 | a field is kept exactly when its list is non-empty or its text is not "", and it keeps its value |
| Filters.HasActiveFiltersMeaning | src/hooks/useFilters.js:44-46 | true exactly when some field is in use |
| Strings.ReplaceAllJoin | src/services/sqlBuilder.js:14 | when no piece holds the placeholder, and the placeholder's first character occurs in it only at the start, global replacement equals joining the pieces with the replacement |
| SqlLiterals.EscapeIsReplaceAll | src/services/sqlBuilder.js:60 | doubling quotes one character at a time equals the global replace of `'` by `''` |
| SqlLiterals.ReadQuote | src/services/sqlBuilder.js:60 | a quoted literal reads back as its value, stopping at the closing quote |
| SqlLiterals.QuoteInjective | src/services/sqlBuilder.js:60 | different values give different literals |
| SqlLiterals.ReadQuotedList | src/services/sqlBuilder.js:60 | a comma-separated list of literals reads back as the list of values |
| SqlBuilder.GetNodeChain | src/services/sqlBuilder.js:29-41 | the loop's result is the root-to-target chain; it is empty for a falsy or missing target |
| SqlBuilder.ChainShape | src/services/sqlBuilder.js:32-40 | on a well-formed tree the chain starts at a root and ends at the target; each entry's parent is the entry before it; every entry is a node of the tree; the length is the target's depth + 1 |
| SqlBuilder.ThreadedCte | src/services/sqlBuilder.js:10-16 | for any SQL text: the text is its pieces around the `{parent}` placeholders, and the entry joins those pieces with the relation it reads from: `h1b` for the first entry, `node_<previous id>` for the others |
| Strings.SplitOnPieces | src/services/sqlBuilder.js:14 | cutting a text at its placeholders gives pieces that join back to the text and hold no placeholder |
| SqlBuilder.EmploymentConditions | src/services/sqlBuilder.js:71-72 | "new" gives exactly the NEW_EMPLOYMENT test and "continued" exactly the CONTINUED_EMPLOYMENT test; at most one of them appears |
| SqlBuilder.Conditions | src/services/sqlBuilder.js:57-72 | there is no condition exactly when both lists are empty, the four texts `state`, `minSalary`, `maxSalary` and `status` are "", and `newEmployment` is neither "new" nor "continued" |
| SqlBuilder.WhereClause | src/services/sqlBuilder.js:74 | empty exactly when no condition applies; otherwise it starts with " WHERE " |
| SqlBuilder.BuildWhereClause | src/services/sqlBuilder.js:56-75 | pushing the conditions in order yields the WHERE clause |
| SqlBuilder.EmployerListReadsBack | src/services/sqlBuilder.js:59-62 | a selected employer list is the first condition, and its IN list reads back as the list |
| SqlBuilder.JobTitleListReadsBack | src/services/sqlBuilder.js:63-66 | a selected job-title list comes right after the employer condition (or first), and its IN list reads back as the list |
| SqlBuilder.RawValueEndsEarly | src/services/sqlBuilder.js:67-70 | for any state or status value `a'b` (no quote in `a`, `b` non-empty and not starting with one), the literal reads back as `a` and leaves `b'` as SQL text, while the doubled form reads back as the whole value |
| SqlBuilder.RawValueUnterminated | src/services/sqlBuilder.js:67-70 | for any state or status value `a'` (no quote in `a`), the literal is never closed, while the doubled form reads back as the whole value |
| SqlBuilder.SalaryBounds | src/services/sqlBuilder.js:68-69 | a salary bound compares with the value of the digit run its text starts with, after an optional minus sign and whatever non-digit text follows, so leading zeros and "-0" included; a text without one compares with `NaN` |
| Strings.ParseIntReadsNumber | src/services/sqlBuilder.js:68-69 | `parseInt` of an integer's text followed by anything that does not start with a digit gives that integer |
| Strings.IntToStringParses | src/services/sqlBuilder.js:68-69 | `parseInt` of an integer's text gives the integer back |
| SqlBuilder.InactiveFiltersNoWhere | src/services/sqlBuilder.js:56-75 | with no filter active there is no WHERE clause |
| SqlBuilder.ActiveFiltersWithoutWhere | src/services/sqlBuilder.js:56-75 | a search text, or a `newEmployment` other than "new" or "continued", is an active filter yet gives no WHERE clause |
| SqlBuilder.SearchTextsIgnored | src/services/sqlBuilder.js:56-75 | the search texts play no part in the WHERE clause |
| SqlBuilder.OrderClause | src/services/sqlBuilder.js:77-80 | empty exactly when the sort key is unset; with no direction it ends in ASC; with a direction it ends in that direction upper-cased |
| SqlBuilder.SortDirections | src/services/sqlBuilder.js:79 | "asc" and "ASC" give ` ASC`, "desc" and "DESC" give ` DESC`, and the case of any direction does not change the clause |
| SqlBuilder.LimitClause | src/services/sqlBuilder.js:82-86 | empty exactly when the page size is unset |
| SqlBuilder.PagesTile | src/services/sqlBuilder.js:84 | an unset page and page 1 start at row 0; each page starts where the one before it ends |
| SqlBuilder.DataPages | src/App.jsx:42 | with pages of `DEFAULT_PAGE_SIZE` rows and `Math.ceil(total / DEFAULT_PAGE_SIZE)` pages (src/App.jsx:164), every page offered starts at an existing row and every row lies on a page offered |
| SqlBuilder.LimitNumbersReadBack | src/services/sqlBuilder.js:85 | the numbers written in the LIMIT clause read back as the page size and the offset |
| SqlBuilder.BuildBaseQuery | src/services/sqlBuilder.js:46-51 | the text is the base-table query; with no condition, sort or page it is `SELECT * FROM h1b` |
| SqlBuilder.BuildCTEChain | src/services/sqlBuilder.js:6-24 | the text is the chain query; a falsy or missing target gives the base query |
| SqlBuilder.BuildCountQuery | src/services/sqlBuilder.js:91-109 | the text is the count over the chain; a falsy or missing target counts the base table under the same WHERE clause |
| SqlBuilder.CountMatchesData | src/services/sqlBuilder.js:91-109 | the count and data queries share the `WITH` list, the relation and the WHERE clause; they differ only in the select list; ORDER BY and LIMIT come last in the data query only |
| SqlBuilder.ChainKept | src/App.jsx:94 | adding the temporary node changes no existing node's chain |
| SqlBuilder.ChainOfInserted | src/App.jsx:94 | the temporary node's chain is its parent's chain followed by the node |
| SqlBuilder.ValidationQuery | src/App.jsx:93-96 | the validation query is the parent's `WITH` list extended by the proposed node, selected from `node_temp` with only `LIMIT 1 OFFSET 0` after it |
| SqlBuilder.ValidationText | src/App.jsx:95 | no filter, no sort and a one-row page add nothing after the alias but `LIMIT 1 OFFSET 0` |

## Left out

- Persistence to session storage (`src/hooks/useTree.js:14-26`), and turning AI mode on
  when a saved tree is loaded: I/O.
- `generateId` (`src/hooks/useTree.js:8`): it reads the clock and a random source. A
  fresh id is passed to `AddNode` instead.
- The React components, the effects in `src/App.jsx`, the language-model API, the
  DuckDB engine and the query service are foreign code or UI. They are not part of
  this model.
- React's batched, asynchronous state updates: every store method takes effect at once.
- TreeStore.Tree.AddNode: requires a parent that exists. The code does not check this.
  `handleAddNode` awaits the language model and the validation query before it calls
  `addNode` (`src/App.jsx:84-112`), and the parent can be deleted while it waits. The
  code then stores a node whose parent id names no node: it is never drawn, it still
  counts toward the node limit, and its chain is the node alone, so its SQL reads from
  `h1b`. That interleaving is asynchronous UI behaviour and is not modelled.
- TreeStore.Tree.SetNodeError: requires an existing id. On a missing id the code would
  create a partial entry.
- TreeStore.Tree.ClearNodeStale: requires an existing id, for the same reason.
- TreeStore.Tree: requires acyclic parent links through `Valid()`. On a cycle the
  code's parent walks and stale marking would not end.
- NodeTree.Children: returns a set. The order of `Object.values` is not modelled.
- SqlBuilder.ValidationQuery: requires that no node already has the id `temp` (generated
  ids start with `node_`) and that the parent exists.
- SchemaUtils.JsValue: numbers are abstract. A number carries only whether it is
  integral, and row keys keep their given order.
- Strings.ParseInt: reads decimal digits after ASCII white space and a sign. A `0x` or
  `0X` prefix, which `parseInt` without a radix reads as hexadecimal, is read here as
  the digit 0. The salary fields come from number inputs
  (`src/components/Filters.jsx:117-122`), so such text does not reach the builder. The
  model has unbounded integers, so it does not round to doubles and does not reject
  large values. Unicode white space is not modelled.
- Strings.Upper: ASCII letters only.
- Strings.ReplaceAll: `$` patterns in a replacement string are not interpreted. The
  replacements used are `h1b`, `node_<id>` and `''`, and none of them holds `$` for
  generated ids.
- SqlBuilder.SortSpec and SqlBuilder.PageSpec: "" and 0 stand for unset fields. A `null`
  sort object, and negative or fractional page numbers, are not modelled.
- Filters.FilterStore.UpdateFilter: requires a value of the field's kind (a list for
  the two list fields, a text otherwise). The code would store any value.
