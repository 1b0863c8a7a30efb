/** The query compositor: the ancestor chain of the selected node becomes a `WITH` list
    of `node_<id> AS (...)` entries, each reading from the one before it (the first from
    the base table), and the outer query selects from the last entry with the filter,
    sort and paging clauses appended in that order. A twin builds the row count. */
module SqlBuilder {
  import opened Wrappers
  import opened Strings
  import opened Constants
  import opened NodeTree
  import opened SqlLiterals
  import opened Filters

  /** The sort state; "" stands for an unset key or direction. */
  datatype SortSpec = SortSpec(key: string, direction: string)

  /** The paging state; 0 stands for an unset page or page size. */
  datatype PageSpec = PageSpec(page: nat, pageSize: nat)

  const NO_SORT := SortSpec("", "")
  const NO_PAGING := PageSpec(0, 0)

  /** The placeholder a node's SQL uses for the relation it reads from. */
  const PLACEHOLDER := "{parent}"

  /** The id the validation of a proposed node gives it. */
  const TEMP_ID := "temp"

  // ---------- The chain ----------

  /** The nodes from the root down to `id`, following parent links while they are truthy
      and name an existing node. */
  ghost function Chain(m: Nodes, rank: map<string, nat>, id: string): seq<Node>
    requires Ranked(Parents(m), rank)
    decreases Measure(Parents(m), rank, id)
  {
    if id !in m then []
    else (if Truthy(m[id].parentId) then Chain(m, rank, m[id].parentId.value) else []) + [m[id]]
  }

  /** The chain of an optional target: empty for a falsy or missing one. */
  ghost function ChainOf(m: Nodes, rank: map<string, nat>, target: Option<string>): seq<Node>
    requires Ranked(Parents(m), rank)
  {
    if Truthy(target) then Chain(m, rank, target.value) else []
  }

  /** `getNodeChain`: walk up from the target, putting each node in front of the chain. */
  method GetNodeChain(nodes: Nodes, targetId: Option<string>, ghost rank: map<string, nat>) returns (chain: seq<Node>)
    requires Ranked(Parents(nodes), rank)
    ensures chain == ChainOf(nodes, rank, targetId)
  {
    if !Truthy(targetId) || targetId.value !in nodes {
      return [];
    }
    ghost var ps := Parents(nodes);
    chain := [];
    var at := targetId.value;
    var current: Option<Node> := Some(nodes[at]);
    while current.Some?
      invariant current.Some? ==> at in nodes && current.value == nodes[at]
      invariant (if current.Some? then Chain(nodes, rank, at) else []) + chain == Chain(nodes, rank, targetId.value)
      decreases if current.Some? then Measure(ps, rank, at) else 0
    {
      var n := current.value;
      chain := [n] + chain;
      if Truthy(n.parentId) && n.parentId.value in nodes {
        at := n.parentId.value;
        current := Some(nodes[at]);
      } else {
        current := None;
      }
    }
  }

  /** On a well-formed tree the chain of an existing node starts at a root, ends at the
      node, links each entry to the one before it, holds only nodes of the tree, and is
      one longer than the node's depth. */
  lemma {:induction false} ChainShape(m: Nodes, rank: map<string, nat>, id: string)
    requires WellFormed(m) && Ranked(Parents(m), rank) && id in m
    ensures |Chain(m, rank, id)| == Depth(Parents(m), rank, id) + 1
    ensures Chain(m, rank, id)[|Chain(m, rank, id)| - 1] == m[id]
    ensures Chain(m, rank, id)[0].parentId == None
    ensures forall i :: 1 <= i < |Chain(m, rank, id)| ==>
              Chain(m, rank, id)[i].parentId == Some(Chain(m, rank, id)[i - 1].id)
    ensures forall i :: 0 <= i < |Chain(m, rank, id)| ==>
              Chain(m, rank, id)[i].id in m && m[Chain(m, rank, id)[i].id] == Chain(m, rank, id)[i]
    decreases Measure(Parents(m), rank, id)
  {
    var c := Chain(m, rank, id);
    var ps := Parents(m);
    if Truthy(m[id].parentId) {
      var p := m[id].parentId.value;
      assert p in m && p in ps && ps[id] == Some(p);
      ChainShape(m, rank, p);
      var cp := Chain(m, rank, p);
      assert c == cp + [m[id]];
      assert cp[|cp| - 1].id == p;
    } else {
      assert c == [m[id]];
    }
  }

  // ---------- The WITH list ----------

  function Alias(id: string): string
  {
    "node_" + id
  }

  /** The relation entry `i` reads from: the base table for the first, the alias of the
      previous entry otherwise. */
  function ParentRef(chain: seq<Node>, i: nat): string
    requires i < |chain|
  {
    if i == 0 then BASE_TABLE else Alias(chain[i - 1].id)
  }

  /** Entry `i` of the `WITH` list: every placeholder in the node's SQL is replaced. */
  function Cte(chain: seq<Node>, i: nat): string
    requires i < |chain|
  {
    Alias(chain[i].id) + " AS (\n  " + ReplaceAll(chain[i].sql, PLACEHOLDER, ParentRef(chain, i)) + "\n)"
  }

  function Ctes(chain: seq<Node>): (r: seq<string>)
    ensures |r| == |chain|
    ensures forall i :: 0 <= i < |chain| ==> r[i] == Cte(chain, i)
  {
    seq(|chain|, i requires 0 <= i < |chain| => Cte(chain, i))
  }

  function WithList(chain: seq<Node>): string
  {
    "WITH \n" + Join(Ctes(chain), ",\n") + "\n"
  }

  /** The alias the outer query reads from. */
  function Target(chain: seq<Node>): string
    requires |chain| > 0
  {
    Alias(chain[|chain| - 1].id)
  }

  /** Every node's SQL is its pieces around the placeholders (`SplitOn`), none of which
      holds the placeholder; its entry is those pieces joined by the relation it reads
      from: the base table for the first entry, the entry before it for every later one. */
  lemma ThreadedCte(chain: seq<Node>, i: nat)
    requires i < |chain|
    ensures Join(SplitOn(chain[i].sql, PLACEHOLDER), PLACEHOLDER) == chain[i].sql
    ensures Cte(chain, i) == Alias(chain[i].id) + " AS (\n  " + Join(SplitOn(chain[i].sql, PLACEHOLDER), ParentRef(chain, i)) + "\n)"
    ensures i == 0 ==> ParentRef(chain, i) == "h1b"
    ensures i > 0 ==> ParentRef(chain, i) == "node_" + chain[i - 1].id
  {
    var pieces := SplitOn(chain[i].sql, PLACEHOLDER);
    SplitOnPieces(chain[i].sql, PLACEHOLDER);
    assert PLACEHOLDER[1..] == "parent}";
    ReplaceAllJoin(pieces, PLACEHOLDER, ParentRef(chain, i));
  }

  // ---------- The clauses ----------

  /** The condition on each filter, as `buildWhereClause` writes it. The two lists are
      quoted with their quotes doubled; the state and status values are put between
      quotes as they are. */
  function EmployerCondition(vs: seq<string>): string { "EMPLOYER_NAME IN (" + QuotedList(vs) + ")" }
  function JobTitleCondition(vs: seq<string>): string { "JOB_TITLE IN (" + QuotedList(vs) + ")" }
  function StateCondition(v: string): string { "WORKSITE_STATE = '" + v + "'" }
  function MinSalaryCondition(v: string): string { "WAGE_RATE_OF_PAY_FROM >= " + ParsedText(v) }
  function MaxSalaryCondition(v: string): string { "WAGE_RATE_OF_PAY_FROM <= " + ParsedText(v) }
  function StatusCondition(v: string): string { "CASE_STATUS = '" + v + "'" }
  /** A salary bound is the value of the digit run its text starts with, after an
      optional minus sign, whatever follows it (leading zeros and "-0" included); a text
      without one gives the comparison with `NaN`. */
  lemma SalaryBounds(ds: string, rest: string, v: string)
    requires |ds| > 0 && forall i :: 0 <= i < |ds| ==> IsDigit(ds[i])
    requires |rest| == 0 || !IsDigit(rest[0])
    ensures MinSalaryCondition(ds + rest) == "WAGE_RATE_OF_PAY_FROM >= " + IntToString(DigitsValue(ds))
    ensures MaxSalaryCondition(ds + rest) == "WAGE_RATE_OF_PAY_FROM <= " + IntToString(DigitsValue(ds))
    ensures MinSalaryCondition("-" + (ds + rest)) == "WAGE_RATE_OF_PAY_FROM >= " + IntToString(-(DigitsValue(ds) as int))
    ensures MaxSalaryCondition("-" + (ds + rest)) == "WAGE_RATE_OF_PAY_FROM <= " + IntToString(-(DigitsValue(ds) as int))
    ensures ParseInt(v).None? ==> MinSalaryCondition(v) == "WAGE_RATE_OF_PAY_FROM >= " + "NaN"
    ensures ParseInt(v).None? ==> MaxSalaryCondition(v) == "WAGE_RATE_OF_PAY_FROM <= " + "NaN"
  {
    ParsedDigits(ds, rest);
  }

  const NEW_TEST := "NEW_EMPLOYMENT > 0"
  const CONTINUED_TEST := "CONTINUED_EMPLOYMENT > 0"

  /** Whether any condition applies. */
  predicate NoCondition(f: FilterSet)
  {
    && |f.employers| == 0 && |f.jobTitles| == 0
    && f.state == "" && f.minSalary == "" && f.maxSalary == ""
    && f.status == "" && f.newEmployment != "new" && f.newEmployment != "continued"
  }

  /** A condition pushed only when `b` holds. */
  function When(b: bool, c: string): (r: seq<string>)
    ensures |r| == if b then 1 else 0
  {
    if b then [c] else []
  }

  /** The two conditions `newEmployment` can give, on different columns; at most one of
      them is pushed. */
  function EmploymentConditions(f: FilterSet): (r: seq<string>)
    ensures r == [] <==> f.newEmployment != "new" && f.newEmployment != "continued"
    ensures f.newEmployment == "new" <==> r == [NEW_TEST]
    ensures f.newEmployment == "continued" <==> r == [CONTINUED_TEST]
  {
    assert NEW_TEST[0] != CONTINUED_TEST[0];
    assert [NEW_TEST] != [CONTINUED_TEST] && [NEW_TEST] + [] == [NEW_TEST] && [] + [CONTINUED_TEST] == [CONTINUED_TEST];
    When(f.newEmployment == "new", NEW_TEST) + When(f.newEmployment == "continued", CONTINUED_TEST)
  }

  /** The two IN-list conditions, in order. */
  function ListConditions(f: FilterSet): seq<string>
  {
    When(|f.employers| > 0, EmployerCondition(f.employers)) + When(|f.jobTitles| > 0, JobTitleCondition(f.jobTitles))
  }

  /** The conditions after the two IN lists, in order. */
  function LaterConditions(f: FilterSet): seq<string>
  {
    When(f.state != "", StateCondition(f.state))
    + When(f.minSalary != "", MinSalaryCondition(f.minSalary))
    + When(f.maxSalary != "", MaxSalaryCondition(f.maxSalary))
    + When(f.status != "", StatusCondition(f.status))
    + EmploymentConditions(f)
  }

  /** The conditions of `buildWhereClause`, in the order it pushes them. */
  function Conditions(f: FilterSet): (r: seq<string>)
    ensures |r| == 0 <==> NoCondition(f)
  {
    ListConditions(f) + LaterConditions(f)
  }

  function WhereClause(f: FilterSet): (r: string)
    ensures r == "" <==> NoCondition(f)
    ensures r != "" ==> |r| > 7 && r[..7] == " WHERE "
  {
    var cs := Conditions(f);
    if |cs| > 0 then " WHERE " + Join(cs, " AND ") else ""
  }

  /** `if (b) conditions.push(c)`. */
  method PushIf(conditions: seq<string>, b: bool, c: string) returns (r: seq<string>)
    ensures r == conditions + When(b, c)
  {
    r := conditions;
    if b {
      r := r + [c];
    }
  }

  /** `buildWhereClause`: push the conditions that apply, then join them. */
  method BuildWhereClause(filters: FilterSet) returns (w: string)
    ensures w == WhereClause(filters)
  {
    var conditions: seq<string> := [];
    conditions := PushIf(conditions, |filters.employers| > 0, EmployerCondition(filters.employers));
    conditions := PushIf(conditions, |filters.jobTitles| > 0, JobTitleCondition(filters.jobTitles));
    ghost var lists := conditions;
    assert lists == ListConditions(filters);
    conditions := PushIf(conditions, filters.state != "", StateCondition(filters.state));
    ghost var later := When(filters.state != "", StateCondition(filters.state));
    ghost var next := When(filters.minSalary != "", MinSalaryCondition(filters.minSalary));
    conditions := PushIf(conditions, filters.minSalary != "", MinSalaryCondition(filters.minSalary));
    AppendAssoc(lists, later, next);
    later := later + next;
    next := When(filters.maxSalary != "", MaxSalaryCondition(filters.maxSalary));
    conditions := PushIf(conditions, filters.maxSalary != "", MaxSalaryCondition(filters.maxSalary));
    AppendAssoc(lists, later, next);
    later := later + next;
    next := When(filters.status != "", StatusCondition(filters.status));
    conditions := PushIf(conditions, filters.status != "", StatusCondition(filters.status));
    AppendAssoc(lists, later, next);
    later := later + next;
    ghost var beforeEmployment := later;
    next := When(filters.newEmployment == "new", NEW_TEST);
    conditions := PushIf(conditions, filters.newEmployment == "new", NEW_TEST);
    AppendAssoc(lists, later, next);
    later := later + next;
    next := When(filters.newEmployment == "continued", CONTINUED_TEST);
    conditions := PushIf(conditions, filters.newEmployment == "continued", CONTINUED_TEST);
    AppendAssoc(lists, later, next);
    later := later + next;
    assert later == LaterConditions(filters) by {
      AppendAssoc(beforeEmployment, When(filters.newEmployment == "new", NEW_TEST), next);
    }
    w := if |conditions| > 0 then " WHERE " + Join(conditions, " AND ") else "";
  }

  /** `buildOrderClause`. */
  function OrderClause(sort: SortSpec): (r: string)
    ensures r == "" <==> sort.key == ""
    ensures sort.key != "" && sort.direction == "" ==> r == " ORDER BY " + sort.key + " ASC"
    ensures sort.key != "" && sort.direction != "" ==> r == " ORDER BY " + sort.key + " " + Upper(sort.direction)
  {
    if sort.key == "" then ""
    else " ORDER BY " + sort.key + " " + Upper(if sort.direction != "" then sort.direction else "asc")
  }

  /** The two directions the table asks for, in either case, come out upper-case, and the
      case of a direction never matters. */
  lemma SortDirections(key: string, direction: string)
    requires key != ""
    ensures OrderClause(SortSpec(key, "asc")) == OrderClause(SortSpec(key, "ASC")) == " ORDER BY " + key + " ASC"
    ensures OrderClause(SortSpec(key, "desc")) == OrderClause(SortSpec(key, "DESC")) == " ORDER BY " + key + " DESC"
    ensures OrderClause(SortSpec(key, Upper(direction))) == OrderClause(SortSpec(key, direction))
  {
    UpperDirections();
    UpperIdempotent(direction);
    SpacedWords();
    WordAfterSpace(" ORDER BY " + key, "ASC", " ASC");
    WordAfterSpace(" ORDER BY " + key, "DESC", " DESC");
  }

  /** The number of rows before page `page` (a missing page counts as the first). */
  function Offset(p: PageSpec): nat
  {
    ((if p.page != 0 then p.page else 1) - 1) * p.pageSize
  }

  /** `buildLimitClause`. */
  function LimitClause(p: PageSpec): (r: string)
    ensures r == "" <==> p.pageSize == 0
  {
    if p.pageSize == 0 then ""
    else " LIMIT " + IntToString(p.pageSize) + " OFFSET " + IntToString(Offset(p))
  }

  /** The first page starts at row 0 and each page starts where the one before it ends. */
  lemma PagesTile(k: nat, size: nat)
    ensures Offset(PageSpec(0, size)) == 0 && Offset(PageSpec(1, size)) == 0
    ensures k >= 1 ==> Offset(PageSpec(k + 1, size)) == Offset(PageSpec(k, size)) + size
  {
  }

  /** The number of pages of `DEFAULT_PAGE_SIZE` rows the table view offers for
      `total` rows: `Math.ceil(total / DEFAULT_PAGE_SIZE)`. */
  function PageCount(total: nat): nat
  {
    (total + DEFAULT_PAGE_SIZE - 1) / DEFAULT_PAGE_SIZE
  }

  /** The data query reads pages of `DEFAULT_PAGE_SIZE` rows: every page the view offers
      starts at an existing row, and every row lies on one of those pages. */
  lemma DataPages(total: nat, page: nat, row: nat)
    ensures 1 <= page <= PageCount(total) ==> Offset(PageSpec(page, DEFAULT_PAGE_SIZE)) < total
    ensures row < total ==>
              var p := row / DEFAULT_PAGE_SIZE + 1;
              && 1 <= p <= PageCount(total)
              && Offset(PageSpec(p, DEFAULT_PAGE_SIZE)) <= row < Offset(PageSpec(p, DEFAULT_PAGE_SIZE)) + DEFAULT_PAGE_SIZE
  {
    if 1 <= page <= PageCount(total) {
      assert (page - 1) * DEFAULT_PAGE_SIZE < total by {
        assert (page - 1) * DEFAULT_PAGE_SIZE + DEFAULT_PAGE_SIZE <= total + DEFAULT_PAGE_SIZE - 1;
      }
    }
    if row < total {
      var q := row / DEFAULT_PAGE_SIZE;
      assert q * DEFAULT_PAGE_SIZE <= row < q * DEFAULT_PAGE_SIZE + DEFAULT_PAGE_SIZE;
      assert q + 1 <= PageCount(total);
    }
  }

  /** The numbers of a LIMIT clause read back as the page size and the offset. */
  lemma LimitNumbersReadBack(p: PageSpec)
    requires p.pageSize > 0
    ensures LimitClause(p) == " LIMIT " + IntToString(p.pageSize) + " OFFSET " + IntToString(Offset(p))
    ensures ParseInt(IntToString(p.pageSize)) == Some(p.pageSize as int)
    ensures ParseInt(IntToString(Offset(p))) == Some(Offset(p) as int)
  {
    IntToStringParses(p.pageSize);
    IntToStringParses(Offset(p));
  }

  // ---------- The queries ----------

  /** `buildBaseQuery`'s text. */
  function BaseQuery(f: FilterSet, sort: SortSpec, p: PageSpec): string
  {
    "SELECT * FROM " + BASE_TABLE + WhereClause(f) + OrderClause(sort) + LimitClause(p)
  }

  /** `buildCTEChain`'s text for a given chain. */
  function ChainQuery(chain: seq<Node>, f: FilterSet, sort: SortSpec, p: PageSpec): string
  {
    if |chain| == 0 then BaseQuery(f, sort, p)
    else WithList(chain) + "SELECT * FROM " + Target(chain) + WhereClause(f) + OrderClause(sort) + LimitClause(p)
  }

  /** `buildCountQuery`'s text for a given chain. */
  function CountQuery(chain: seq<Node>, f: FilterSet): string
  {
    if |chain| == 0 then "SELECT COUNT(*) as cnt FROM " + BASE_TABLE + WhereClause(f)
    else WithList(chain) + "SELECT COUNT(*) as cnt FROM " + Target(chain) + WhereClause(f)
  }

  /** The count query counts what the data query reads: the two share the `WITH` list,
      the relation and the WHERE clause, and differ only in the select list; ordering and
      paging come last in the data query and not at all in the count. */
  lemma CountMatchesData(chain: seq<Node>, f: FilterSet, sort: SortSpec, p: PageSpec)
    ensures ChainQuery(chain, f, sort, p) == Prelude(chain) + "SELECT * FROM " + Source(chain) + WhereClause(f) + OrderClause(sort) + LimitClause(p)
    ensures CountQuery(chain, f) == Prelude(chain) + "SELECT COUNT(*) as cnt FROM " + Source(chain) + WhereClause(f)
  {
    if |chain| == 0 {
      EmptyPrefix("SELECT * FROM ");
      EmptyPrefix("SELECT COUNT(*) as cnt FROM ");
    }
  }

  /** What comes before the select list: nothing for the base table, the `WITH` list for
      a chain. */
  function Prelude(chain: seq<Node>): (r: string)
    ensures |chain| == 0 ==> r == ""
    ensures |chain| > 0 ==> r == WithList(chain)
  {
    if |chain| == 0 then "" else WithList(chain)
  }

  /** The relation both queries read: the base table, or the last entry of the chain. */
  function Source(chain: seq<Node>): (r: string)
    ensures |chain| == 0 ==> r == "h1b"
    ensures |chain| > 0 ==> r == "node_" + chain[|chain| - 1].id
  {
    if |chain| == 0 then BASE_TABLE else Target(chain)
  }

  /** `buildBaseQuery`. */
  method BuildBaseQuery(filters: FilterSet, sort: SortSpec, p: PageSpec) returns (q: string)
    ensures q == BaseQuery(filters, sort, p)
    ensures NoCondition(filters) && sort.key == "" && p.pageSize == 0 ==> q == "SELECT * FROM h1b"
  {
    var w := BuildWhereClause(filters);
    q := "SELECT * FROM " + BASE_TABLE + w + OrderClause(sort) + LimitClause(p);
    BareSelect(w, OrderClause(sort), LimitClause(p));
  }

  /** `buildCTEChain`: the base query when the target has no chain, the `WITH` query
      over the chain otherwise. */
  method BuildCTEChain(nodes: Nodes, targetId: Option<string>, filters: FilterSet, sort: SortSpec, p: PageSpec,
                       ghost rank: map<string, nat>) returns (q: string)
    requires Ranked(Parents(nodes), rank)
    ensures q == ChainQuery(ChainOf(nodes, rank, targetId), filters, sort, p)
    ensures !Truthy(targetId) || targetId.value !in nodes ==> q == BaseQuery(filters, sort, p)
  {
    var chain := GetNodeChain(nodes, targetId, rank);
    if |chain| == 0 {
      q := BuildBaseQuery(filters, sort, p);
      return;
    }
    var w := BuildWhereClause(filters);
    q := WithList(chain) + "SELECT * FROM " + Target(chain) + w + OrderClause(sort) + LimitClause(p);
  }

  /** `buildCountQuery`. */
  method BuildCountQuery(nodes: Nodes, targetId: Option<string>, filters: FilterSet,
                         ghost rank: map<string, nat>) returns (q: string)
    requires Ranked(Parents(nodes), rank)
    ensures q == CountQuery(ChainOf(nodes, rank, targetId), filters)
    ensures !Truthy(targetId) || targetId.value !in nodes ==> q == "SELECT COUNT(*) as cnt FROM " + BASE_TABLE + WhereClause(filters)
  {
    var chain := GetNodeChain(nodes, targetId, rank);
    var w := BuildWhereClause(filters);
    if |chain| == 0 {
      return "SELECT COUNT(*) as cnt FROM " + BASE_TABLE + w;
    }
    q := WithList(chain) + "SELECT COUNT(*) as cnt FROM " + Target(chain) + w;
  }

  // ---------- What the WHERE clause says ----------

  /** With no filter in use there is no WHERE clause. */
  lemma InactiveFiltersNoWhere(f: FilterSet)
    requires !HasActiveFilters(f)
    ensures WhereClause(f) == ""
  {
    HasActiveFiltersMeaning(f);
    assert !IsActive(Get(f, Employers)) && !IsActive(Get(f, JobTitles)) && !IsActive(Get(f, State));
    assert !IsActive(Get(f, MinSalary)) && !IsActive(Get(f, MaxSalary)) && !IsActive(Get(f, Status));
    assert !IsActive(Get(f, NewEmployment));
  }

  /** The converse fails: the two search texts count as active filters but never reach
      the WHERE clause, and neither does a `newEmployment` other than "new" or
      "continued". */
  lemma ActiveFiltersWithoutWhere(search: string, other: string)
    requires search != "" && other != "" && other != "new" && other != "continued"
    ensures HasActiveFilters(DefaultFilters.(employerSearch := search))
    ensures WhereClause(DefaultFilters.(employerSearch := search)) == ""
    ensures HasActiveFilters(DefaultFilters.(jobTitleSearch := search))
    ensures WhereClause(DefaultFilters.(jobTitleSearch := search)) == ""
    ensures HasActiveFilters(DefaultFilters.(newEmployment := other))
    ensures WhereClause(DefaultFilters.(newEmployment := other)) == ""
  {
    HasActiveFiltersMeaning(DefaultFilters.(employerSearch := search));
    assert IsActive(Get(DefaultFilters.(employerSearch := search), EmployerSearch));
    HasActiveFiltersMeaning(DefaultFilters.(jobTitleSearch := search));
    assert IsActive(Get(DefaultFilters.(jobTitleSearch := search), JobTitleSearch));
    HasActiveFiltersMeaning(DefaultFilters.(newEmployment := other));
    assert IsActive(Get(DefaultFilters.(newEmployment := other), NewEmployment));
  }

  /** The search texts play no part in the WHERE clause. */
  lemma SearchTextsIgnored(f: FilterSet, employerSearch: string, jobTitleSearch: string)
    ensures WhereClause(f.(employerSearch := employerSearch, jobTitleSearch := jobTitleSearch)) == WhereClause(f)
  {
  }

  /** A selected employer list is the first condition, and its IN list reads back as the
      list. */
  lemma EmployerListReadsBack(f: FilterSet)
    requires |f.employers| > 0
    ensures Conditions(f)[0] == EmployerCondition(f.employers)
    ensures EmployerCondition(f.employers) == "EMPLOYER_NAME IN (" + QuotedList(f.employers) + ")"
    ensures ReadList(QuotedList(f.employers)) == Some(f.employers)
  {
    var lists, later := ListConditions(f), LaterConditions(f);
    assert lists == [EmployerCondition(f.employers)] + When(|f.jobTitles| > 0, JobTitleCondition(f.jobTitles));
    assert (lists + later)[0] == lists[0];
    ReadQuotedList(f.employers);
  }

  /** A selected job-title list is a condition, right after the employer list if there
      is one, and its IN list reads back as the list. */
  lemma JobTitleListReadsBack(f: FilterSet)
    requires |f.jobTitles| > 0
    ensures Conditions(f)[if |f.employers| > 0 then 1 else 0] == JobTitleCondition(f.jobTitles)
    ensures JobTitleCondition(f.jobTitles) == "JOB_TITLE IN (" + QuotedList(f.jobTitles) + ")"
    ensures ReadList(QuotedList(f.jobTitles)) == Some(f.jobTitles)
  {
    var lists, later := ListConditions(f), LaterConditions(f);
    var i := if |f.employers| > 0 then 1 else 0;
    assert lists == When(|f.employers| > 0, EmployerCondition(f.employers)) + [JobTitleCondition(f.jobTitles)];
    assert lists[i] == JobTitleCondition(f.jobTitles);
    assert (lists + later)[i] == lists[i];
    ReadQuotedList(f.jobTitles);
  }

  /** A state or status value ending in a quote leaves its literal unterminated, while
      the doubled form reads back as the whole value. */
  lemma RawValueUnterminated(a: string)
    requires QUOTE !in a
    ensures StateCondition(a + [QUOTE]) == "WORKSITE_STATE = " + ([QUOTE] + a + [QUOTE, QUOTE])
    ensures StatusCondition(a + [QUOTE]) == "CASE_STATUS = " + ([QUOTE] + a + [QUOTE, QUOTE])
    ensures ReadLiteral([QUOTE] + a + [QUOTE, QUOTE]) == None
    ensures ReadLiteral(Quote(a + [QUOTE])) == Some((a + [QUOTE], ""))
  {
    var v := a + [QUOTE];
    RawConditions(v);
    assert [QUOTE] + v + [QUOTE] == [QUOTE] + a + [QUOTE, QUOTE];
    UnclosedBody(a);
    assert ([QUOTE] + a + [QUOTE, QUOTE])[1..] == a + [QUOTE, QUOTE];
    ReadQuote(v, "");
    assert Quote(v) + "" == Quote(v);
  }

  /** The state and status values are put between quotes as they are: in a value holding
      a quote, the text before the quote is read as the whole literal and the rest as SQL,
      while the doubled form of the list conditions reads back as the whole value. */
  lemma RawValueEndsEarly(a: string, b: string)
    requires QUOTE !in a && |b| > 0 && b[0] != QUOTE
    ensures StateCondition(a + [QUOTE] + b) == "WORKSITE_STATE = " + ([QUOTE] + a + [QUOTE] + b + [QUOTE])
    ensures StatusCondition(a + [QUOTE] + b) == "CASE_STATUS = " + ([QUOTE] + a + [QUOTE] + b + [QUOTE])
    ensures ReadLiteral([QUOTE] + a + [QUOTE] + b + [QUOTE]) == Some((a, b + [QUOTE]))
    ensures ReadLiteral(Quote(a + [QUOTE] + b)) == Some((a + [QUOTE] + b, ""))
  {
    var v := a + [QUOTE] + b;
    RawConditions(v);
    assert [QUOTE] + v + [QUOTE] == [QUOTE] + a + [QUOTE] + b + [QUOTE];
    RawLiteralStops(a, b);
    ReadQuote(v, "");
    assert Quote(v) + "" == Quote(v);
  }

  /** The state and status conditions put the raw value between two quotes. */
  lemma RawConditions(v: string)
    ensures StateCondition(v) == "WORKSITE_STATE = " + ([QUOTE] + v + [QUOTE])
    ensures StatusCondition(v) == "CASE_STATUS = " + ([QUOTE] + v + [QUOTE])
  {
    assert "WORKSITE_STATE = '" == "WORKSITE_STATE = " + [QUOTE];
    assert "CASE_STATUS = '" == "CASE_STATUS = " + [QUOTE];
    assert "'" == [QUOTE];
  }

  /** A literal read stops at the first single quote. */
  lemma RawLiteralStops(a: string, b: string)
    requires QUOTE !in a && |b| > 0 && b[0] != QUOTE
    ensures ReadLiteral([QUOTE] + a + [QUOTE] + b + [QUOTE]) == Some((a, b + [QUOTE]))
  {
    var lit := [QUOTE] + a + [QUOTE] + b + [QUOTE];
    EscapeWithoutQuote(a);
    ReadEscaped(a, b + [QUOTE]);
    assert lit[1..] == Escape(a) + [QUOTE] + (b + [QUOTE]);
  }

  // ---------- Validating a proposed node ----------

  /** Inserting a fresh node changes no existing node's chain. */
  lemma {:induction false} ChainKept(m: Nodes, rank: map<string, nat>, n: Node, k: string)
    requires WellFormed(m) && Ranked(Parents(m), rank)
    requires n.id != "" && n.id !in m && (n.parentId.Some? ==> n.parentId.value in m)
    requires k in m
    ensures Ranked(Parents(m[n.id := n]), rank[n.id := InsertRank(Parents(m), rank, n.parentId)])
    ensures Chain(m[n.id := n], rank[n.id := InsertRank(Parents(m), rank, n.parentId)], k) == Chain(m, rank, k)
    decreases Measure(Parents(m), rank, k)
  {
    InsertNode(m, rank, n);
    if Truthy(m[k].parentId) {
      var p := m[k].parentId.value;
      assert p in m && Parents(m)[k] == Some(p);
      ChainKept(m, rank, n, p);
    }
  }

  /** The chain of a freshly inserted node is its parent's chain followed by the node. */
  lemma ChainOfInserted(m: Nodes, rank: map<string, nat>, n: Node)
    requires WellFormed(m) && Ranked(Parents(m), rank)
    requires n.id != "" && n.id !in m && (n.parentId.Some? ==> n.parentId.value in m)
    ensures Ranked(Parents(m[n.id := n]), rank[n.id := InsertRank(Parents(m), rank, n.parentId)])
    ensures Chain(m[n.id := n], rank[n.id := InsertRank(Parents(m), rank, n.parentId)], n.id)
            == ChainOf(m, rank, n.parentId) + [n]
  {
    InsertNode(m, rank, n);
    if Truthy(n.parentId) {
      ChainKept(m, rank, n, n.parentId.value);
    }
  }

  /** The node the validation step builds for a proposed query. */
  function TempNode(parentId: Option<string>, prompt: string, sql: string, schema: Option<SchemaUtils.Schema>): Node
  {
    Node(TEMP_ID, parentId, prompt, sql, schema, false, None)
  }

  /** The validation query for a proposed node: the tree with a `temp` node added under
      `parentId`, queried at `temp` with no filter, no sort and one row. It is the
      parent's `WITH` list extended by the proposed node, read without any clause but
      `LIMIT 1 OFFSET 0`. */
  method ValidationQuery(nodes: Nodes, parentId: Option<string>, prompt: string, sql: string,
                         schema: Option<SchemaUtils.Schema>, ghost rank: map<string, nat>) returns (q: string)
    requires WellFormed(nodes) && Ranked(Parents(nodes), rank)
    requires TEMP_ID !in nodes && (parentId.Some? ==> parentId.value in nodes)
    ensures q == WithList(ChainOf(nodes, rank, parentId) + [TempNode(parentId, prompt, sql, schema)])
                 + "SELECT * FROM " + Alias(TEMP_ID) + " LIMIT 1 OFFSET 0"
  {
    var temp := TempNode(parentId, prompt, sql, schema);
    ChainOfInserted(nodes, rank, temp);
    ghost var rank' := rank[TEMP_ID := InsertRank(Parents(nodes), rank, parentId)];
    q := BuildCTEChain(nodes[TEMP_ID := temp], Some(TEMP_ID), DefaultFilters, NO_SORT, PageSpec(1, 1), rank');
    ValidationText(ChainOf(nodes, rank, parentId) + [temp]);
  }

  /** With no filter, no sort and a page of one row, a chain ending in `temp` is queried
      with nothing after its alias but `LIMIT 1 OFFSET 0`. */
  lemma ValidationText(chain: seq<Node>)
    requires |chain| > 0 && chain[|chain| - 1].id == TEMP_ID
    ensures ChainQuery(chain, DefaultFilters, NO_SORT, PageSpec(1, 1))
            == WithList(chain) + "SELECT * FROM " + Alias(TEMP_ID) + " LIMIT 1 OFFSET 0"
  {
    var head := WithList(chain) + "SELECT * FROM " + Target(chain);
    assert WhereClause(DefaultFilters) == "";
    assert OrderClause(NO_SORT) == "";
    OneRowLimit();
    EmptySuffix(head);
  }

  /** A page of one row at page 1 reads the first row. */
  lemma OneRowLimit()
    ensures LimitClause(PageSpec(1, 1)) == " LIMIT 1 OFFSET 0"
  {
    assert IntToString(1) == "1" && IntToString(0) == "0";
  }

  // ---------- Proof hints ----------
  // String and sequence identities the solver needs spelled out; they state nothing
  // about the query builder itself.

  lemma EmptyPrefix(s: string)
    ensures "" + s == s
  {
  }

  lemma EmptySuffix(s: string)
    ensures s + "" == s
  {
  }

  lemma AppendAssoc(a: seq<string>, b: seq<string>, c: seq<string>)
    ensures (a + b) + c == a + (b + c)
  {
  }

  lemma BareSelect(w: string, o: string, l: string)
    ensures w == "" && o == "" && l == "" ==> "SELECT * FROM " + BASE_TABLE + w + o + l == "SELECT * FROM h1b"
  {
  }

  lemma SpacedWords()
    ensures " ASC" == " " + "ASC" && " DESC" == " " + "DESC"
  {
  }

  lemma WordAfterSpace(prefix: string, word: string, spaced: string)
    requires spaced == " " + word
    ensures prefix + " " + word == prefix + spaced
  {
  }

  lemma UpperDirections()
    ensures Upper("asc") == "ASC" == Upper("ASC")
    ensures Upper("desc") == "DESC" == Upper("DESC")
  {
    assert Upper("asc") == "ASC";
    assert Upper("desc") == "DESC";
  }
}
