/** The filter panel's state: two multi-select lists and seven text fields, set one field
    at a time, toggled, reset, and summarised as the set of fields that are in use. */
module Filters {

  /** The filter record. A text field holds "" when unset. */
  datatype FilterSet = FilterSet(
    employers: seq<string>,
    jobTitles: seq<string>,
    employerSearch: string,
    jobTitleSearch: string,
    state: string,
    minSalary: string,
    maxSalary: string,
    status: string,
    newEmployment: string)

  /** The record's keys, in declaration order. */
  datatype Field =
    | Employers
    | JobTitles
    | EmployerSearch
    | JobTitleSearch
    | State
    | MinSalary
    | MaxSalary
    | Status
    | NewEmployment

  /** A field's value: a list for the two multi-select fields, a text otherwise. */
  datatype FieldValue = List(items: seq<string>) | Text(text: string)

  predicate IsListField(k: Field)
  {
    k == Employers || k == JobTitles
  }

  /** The value kinds the record's fields hold. */
  predicate Fits(k: Field, v: FieldValue)
  {
    IsListField(k) <==> v.List?
  }

  /** `defaultFilters`: empty lists and empty texts. */
  const DefaultFilters := FilterSet([], [], "", "", "", "", "", "", "")

  /** `filters[key]`. */
  function Get(f: FilterSet, k: Field): (v: FieldValue)
    ensures Fits(k, v)
  {
    match k
    case Employers => List(f.employers)
    case JobTitles => List(f.jobTitles)
    case EmployerSearch => Text(f.employerSearch)
    case JobTitleSearch => Text(f.jobTitleSearch)
    case State => Text(f.state)
    case MinSalary => Text(f.minSalary)
    case MaxSalary => Text(f.maxSalary)
    case Status => Text(f.status)
    case NewEmployment => Text(f.newEmployment)
  }

  /** `{ ...f, [key]: value }`: field `k` becomes `v` and every other field stays. */
  function Set(f: FilterSet, k: Field, v: FieldValue): (r: FilterSet)
    requires Fits(k, v)
    ensures Get(r, k) == v
    ensures forall j :: j != k ==> Get(r, j) == Get(f, j)
  {
    match k
    case Employers => f.(employers := v.items)
    case JobTitles => f.(jobTitles := v.items)
    case EmployerSearch => f.(employerSearch := v.text)
    case JobTitleSearch => f.(jobTitleSearch := v.text)
    case State => f.(state := v.text)
    case MinSalary => f.(minSalary := v.text)
    case MaxSalary => f.(maxSalary := v.text)
    case Status => f.(status := v.text)
    case NewEmployment => f.(newEmployment := v.text)
  }

  /** A record is determined by its fields. */
  lemma FieldsDetermine(f: FilterSet, g: FilterSet)
    requires forall k :: Get(f, k) == Get(g, k)
    ensures f == g
  {
    assert Get(f, Employers) == Get(g, Employers);
    assert Get(f, JobTitles) == Get(g, JobTitles);
    assert Get(f, EmployerSearch) == Get(g, EmployerSearch);
    assert Get(f, JobTitleSearch) == Get(g, JobTitleSearch);
    assert Get(f, State) == Get(g, State);
    assert Get(f, MinSalary) == Get(g, MinSalary);
    assert Get(f, MaxSalary) == Get(g, MaxSalary);
    assert Get(f, Status) == Get(g, Status);
    assert Get(f, NewEmployment) == Get(g, NewEmployment);
  }

  /** Setting a field to the value it already holds changes nothing; setting it twice
      keeps the last value. */
  lemma SetLaws(f: FilterSet, k: Field, v: FieldValue, w: FieldValue)
    requires Fits(k, v) && Fits(k, w)
    ensures Set(f, k, Get(f, k)) == f
    ensures Set(Set(f, k, v), k, w) == Set(f, k, w)
  {
    FieldsDetermine(Set(f, k, Get(f, k)), f);
    FieldsDetermine(Set(Set(f, k, v), k, w), Set(f, k, w));
  }

  /** `xs.filter(x => x !== v)`. */
  function Remove(xs: seq<string>, v: string): (r: seq<string>)
    ensures v !in r
    ensures forall w :: w != v ==> (w in r <==> w in xs)
    ensures |r| <= |xs|
  {
    if |xs| == 0 then []
    else (if xs[0] == v then [] else [xs[0]]) + Remove(xs[1..], v)
  }

  /** The list after `toggleArrayFilter`: every occurrence of a present value is dropped,
      an absent one is appended. */
  function Toggle(xs: seq<string>, v: string): seq<string>
  {
    if v in xs then Remove(xs, v) else xs + [v]
  }

  /** Toggling flips the membership of `v` and of nothing else. */
  lemma ToggleFlips(xs: seq<string>, v: string)
    ensures v in Toggle(xs, v) <==> v !in xs
    ensures forall w :: w != v ==> (w in Toggle(xs, v) <==> w in xs)
  {
  }

  /** Removing a value that does not occur keeps the list. */
  lemma {:induction false} RemoveAbsent(xs: seq<string>, v: string)
    requires v !in xs
    ensures Remove(xs, v) == xs
  {
    if |xs| > 0 {
      assert xs[0] != v;
      assert v !in xs[1..];
      RemoveAbsent(xs[1..], v);
      assert xs == [xs[0]] + xs[1..];
    }
  }

  /** Removing distributes over concatenation. */
  lemma {:induction false} RemoveAppend(xs: seq<string>, ys: seq<string>, v: string)
    ensures Remove(xs + ys, v) == Remove(xs, v) + Remove(ys, v)
  {
    if |xs| == 0 {
      assert xs + ys == ys;
    } else {
      assert (xs + ys)[1..] == xs[1..] + ys;
      RemoveAppend(xs[1..], ys, v);
    }
  }

  /** Toggling an absent value twice gives back the list. */
  lemma ToggleTwiceAbsent(xs: seq<string>, v: string)
    requires v !in xs
    ensures Toggle(Toggle(xs, v), v) == xs
  {
    RemoveAppend(xs, [v], v);
    RemoveAbsent(xs, v);
    assert Remove([v], v) == [];
  }

  /** A field is in use when its list is non-empty or its text is not "". */
  predicate IsActive(v: FieldValue)
  {
    match v
    case List(items) => |items| > 0
    case Text(t) => t != ""
  }

  /** `getActiveFilters`: the fields in use, with their values. */
  function ActiveFilters(f: FilterSet): (r: map<Field, FieldValue>)
    ensures forall k :: k in r <==> IsActive(Get(f, k))
    ensures forall k :: k in r ==> r[k] == Get(f, k)
  {
    AllFieldsComplete();
    map k | k in AllFields() && IsActive(Get(f, k)) :: Get(f, k)
  }

  /** Every field, as a finite set. */
  function AllFields(): set<Field>
  {
    {Employers, JobTitles, EmployerSearch, JobTitleSearch, State, MinSalary, MaxSalary, Status, NewEmployment}
  }

  lemma AllFieldsComplete()
    ensures forall k :: k in AllFields()
  {
    forall k ensures k in AllFields() {
      match k
      case Employers =>
      case JobTitles =>
      case EmployerSearch =>
      case JobTitleSearch =>
      case State =>
      case MinSalary =>
      case MaxSalary =>
      case Status =>
      case NewEmployment =>
    }
  }

  /** `hasActiveFilters`: some field is in use. */
  predicate HasActiveFilters(f: FilterSet)
  {
    |ActiveFilters(f)| > 0
  }

  lemma HasActiveFiltersMeaning(f: FilterSet)
    ensures HasActiveFilters(f) <==> exists k :: IsActive(Get(f, k))
  {
    var r := ActiveFilters(f);
    if exists k :: IsActive(Get(f, k)) {
      var k :| IsActive(Get(f, k));
      assert k in r;
    }
    if HasActiveFilters(f) {
      var k :| k in r;
      assert IsActive(Get(f, k));
    }
  }

  /** Nothing is in use in the default record. */
  lemma DefaultsInactive()
    ensures ActiveFilters(DefaultFilters) == map[]
    ensures !HasActiveFilters(DefaultFilters)
  {
    forall k ensures !IsActive(Get(DefaultFilters, k)) {
    }
  }

  /** The `filters` state of the `useFilters` hook. */
  class FilterStore {
    var filters: FilterSet

    constructor ()
      ensures filters == DefaultFilters
    {
      filters := DefaultFilters;
    }

    /** `updateFilter(key, value)`. */
    method UpdateFilter(k: Field, v: FieldValue)
      requires Fits(k, v)
      modifies this
      ensures filters == Set(old(filters), k, v)
    {
      filters := Set(filters, k, v);
    }

    /** `toggleArrayFilter(key, value)` on one of the two lists. */
    method ToggleArrayFilter(k: Field, v: string)
      requires IsListField(k)
      modifies this
      ensures filters == Set(old(filters), k, List(Toggle(Get(old(filters), k).items, v)))
    {
      var xs := Get(filters, k).items;
      var toggled := if v in xs then Remove(xs, v) else xs + [v];
      filters := Set(filters, k, List(toggled));
    }

    /** `resetFilters`: back to the defaults, whatever the state was. */
    method ResetFilters()
      modifies this
      ensures filters == DefaultFilters
      ensures !HasActiveFilters(filters)
    {
      filters := DefaultFilters;
      DefaultsInactive();
    }
  }
}
