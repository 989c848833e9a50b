/**
 * The sightings table component: the fetched rows, the active sort column
 * and the sort direction, and the header click that reorders the rows.
 */
module Table {
  import opened Optional
  import opened Sightings
  import opened Text
  import opened SortOrder

  /** The column the table starts sorted on. */
  const InitialColumn: string := "ID"

  // The header labels name the five record fields once lower-cased, which
  // is the key path `orderBy` is given.
  lemma IdHeaderPath() ensures ToLower("ID") == "id" {
    ToLowerPointwise("ID", "id");
  }
  lemma DateTimeHeaderPath() ensures ToLower("DateTime") == "datetime" {
    ToLowerPointwise("DateTime", "datetime");
  }
  lemma SpeciesHeaderPath() ensures ToLower("Species") == "species" {
    ToLowerPointwise("Species", "species");
  }
  lemma DescriptionHeaderPath() ensures ToLower("Description") == "description" {
    ToLowerPointwise("Description", "description");
  }
  lemma CountHeaderPath() ensures ToLower("Count") == "count" {
    ToLowerPointwise("Count", "count");
  }

  /** The direction after choosing `chosen`: flipped on the active column, ascending on any other. */
  function NextSortDir(sortColumn: string, sortDir: bool, chosen: string): (r: bool)
    ensures sortColumn == chosen ==> r != sortDir
    ensures sortColumn != chosen ==> r
  {
    if sortColumn == chosen then !sortDir else true
  }

  class DuckTable {
    var ducks: seq<Duck>
    var sortColumn: string
    /** `true` is ascending. */
    var sortDir: bool
    /** The rows as the last successful fetch delivered them. */
    ghost var fetched: seq<Duck>

    /** Sorting only reorders: the rows shown are always those fetched. */
    ghost predicate Valid()
      reads this
    {
      multiset(ducks) == multiset(fetched)
    }

    constructor ()
      ensures Valid()
      ensures ducks == [] && fetched == []
      ensures sortColumn == InitialColumn && sortDir
    {
      ducks, fetched := [], [];
      sortColumn, sortDir := InitialColumn, true;
    }

    /**
     * The success outcome of the list fetch: the rows are replaced
     * wholesale, in the server's order; the sort state is kept but not
     * reapplied.
     */
    method OnSightingsFetched(rows: seq<Duck>)
      modifies this
      ensures Valid()
      ensures ducks == rows && fetched == rows
      ensures sortColumn == old(sortColumn) && sortDir == old(sortDir)
    {
      ducks, fetched := rows, rows;
    }

    /**
     * A click on a header. `None` is the `undefined` label of a click that
     * misses the header text, and changes nothing.
     */
    method SortDataBy(columnName: Option<string>)
      requires Valid()
      modifies this
      ensures Valid() && fetched == old(fetched)
      ensures columnName.None? ==>
        ducks == old(ducks) && sortColumn == old(sortColumn) && sortDir == old(sortDir)
      ensures columnName.Some? ==>
        && sortColumn == columnName.value
        && sortDir == (if old(sortColumn) == columnName.value then !old(sortDir) else true)
        && ducks == OrderBy(old(ducks), ToLower(columnName.value), sortDir)
      ensures columnName.Some? ==>
        && multiset(ducks) == multiset(old(ducks))
        && Sorted(ducks, ToLower(columnName.value), sortDir)
        && KeepsTies(ducks, old(ducks), ToLower(columnName.value))
    {
      if columnName.None? { return; }
      var name := columnName.value;
      var dir := NextSortDir(sortColumn, sortDir, name);
      ducks := OrderBy(ducks, ToLower(name), dir);
      sortDir, sortColumn := dir, name;
    }
  }

  /** On a fresh table the first click on "ID" sorts descending, since "ID" is already active. */
  method FirstClickOnId(rows: seq<Duck>) returns (sortDir: bool, ducks: seq<Duck>)
    ensures !sortDir
    ensures ducks == OrderBy(rows, "id", false)
  {
    var t := new DuckTable();
    t.OnSightingsFetched(rows);
    t.SortDataBy(Some("ID"));
    IdHeaderPath();
    sortDir, ducks := t.sortDir, t.ducks;
  }

  /**
   * Clicking one column three times in a row: the second click reverses the
   * direction and the third restores both the direction and the order the
   * first click produced.
   */
  method ToggleTwiceRestores(rows: seq<Duck>, column: string)
    returns (firstDir: bool, first: seq<Duck>, thirdDir: bool, third: seq<Duck>)
    ensures thirdDir == firstDir && third == first
  {
    var t := new DuckTable();
    t.OnSightingsFetched(rows);
    t.SortDataBy(Some(column));
    firstDir, first := t.sortDir, t.ducks;
    t.SortDataBy(Some(column));
    t.SortDataBy(Some(column));
    OrderByAgain(rows, ToLower(column), firstDir, !firstDir);
    OrderByAgain(rows, ToLower(column), !firstDir, firstDir);
    thirdDir, third := t.sortDir, t.ducks;
  }
}
