/** The tabular data the pipeline passes around: one row per job listing,
    and a frame that knows which columns it has. */
module Frames {
  import opened Wrappers

  /** The columns the core reads or writes; other scraped columns are carried
      along untouched and are not modelled one by one. */
  datatype Column = Title | Description | JobUrl | Site | SearchTerm

  /** One scraped job posting; every cell may be missing (NaN). */
  datatype Listing = Listing(
    title: Option<string>,
    description: Option<string>,
    jobUrl: Option<string>,
    site: Option<string>,
    searchTerm: Option<string>)

  /** A row holds no value in a column its frame does not have. */
  predicate Fits(columns: set<Column>, l: Listing)
  {
    && (Title !in columns ==> l.title.None?)
    && (Description !in columns ==> l.description.None?)
    && (JobUrl !in columns ==> l.jobUrl.None?)
    && (Site !in columns ==> l.site.None?)
    && (SearchTerm !in columns ==> l.searchTerm.None?)
  }

  datatype Table = Table(columns: set<Column>, rows: seq<Listing>)

  predicate WellFormed(t: Table)
  {
    forall l :: l in t.rows ==> Fits(t.columns, l)
  }

  /** A data frame: an ordered sequence of rows over a set of columns. */
  type Frame = t: Table | WellFormed(t) witness Table({}, [])

  /** `pd.DataFrame()`: no columns, no rows. */
  const EmptyFrame: Frame := Table({}, [])

  /** `DataFrame.empty`: true when either axis has length zero. */
  predicate IsEmpty(f: Frame)
  {
    |f.rows| == 0 || f.columns == {}
  }

  /** `pd.concat([a, b], ignore_index=True)`: the union of the columns and the
      rows of `a` followed by the rows of `b`; a row's cells in columns its own
      frame lacked stay missing. */
  function Concat(a: Frame, b: Frame): Frame
  {
    Table(a.columns + b.columns, a.rows + b.rows)
  }
}
