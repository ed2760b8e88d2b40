/** The `samples` table and the operations of backend/app/crud.py on it:
    `create_sample`, `get_samples`, `search_samples` and `flag_sample`.
    The database is a sequence of rows in insertion order; `created_at`
    (`server_default=func.now()`) is a clock reading supplied by the caller. */
module Samples {
  import opened Py
  import opened Text

  /** `extra_metadata={"length": len(text)}` as the crawler builds it. */
  datatype Metadata = Metadata(length: nat)

  /** The `SampleCreate` schema. It declares no `flagged` attribute. */
  datatype SampleCreate = SampleCreate(
    source: string,
    url: string,
    title: Option<string>,
    content: string,
    extraMetadata: Option<Metadata>)

  /** A row of the `samples` table. */
  datatype Sample = Sample(
    id: nat,
    source: string,
    url: string,
    title: Option<string>,
    content: string,
    extraMetadata: Option<Metadata>,
    createdAt: nat,
    flagged: bool)

  /** The table's contents and the id the next inserted row receives. */
  datatype Store = Store(rows: seq<Sample>, nextId: nat)

  /** Ids grow with insertion order and stay below `nextId`, so they are
      unique and a freshly assigned id is new. */
  predicate ValidStore(st: Store) {
    && (forall i, j :: 0 <= i < j < |st.rows| ==> st.rows[i].id < st.rows[j].id)
    && (forall i :: 0 <= i < |st.rows| ==> st.rows[i].id < st.nextId)
  }

  const DefaultLimit: nat := 100

  // ---------------------------------------------------------------------
  // create_sample

  /** Attribute access on a `SampleCreate` object: the declared attributes
      and nothing else. */
  function SchemaAttr(c: SampleCreate, name: string): Result<Option<string>> {
    if name == "source" then Ok(Some(c.source))
    else if name == "url" then Ok(Some(c.url))
    else if name == "title" then Ok(c.title)
    else if name == "content" then Ok(Some(c.content))
    else Raise(AttributeError)
  }

  /** `create_sample` as written: it reads `sample.flagged` from the schema
      object, which has no such attribute, before anything is inserted. */
  function CreateSampleAsWritten(st: Store, c: SampleCreate, now: nat): Result<(Store, Sample)> {
    var url :- SchemaAttr(c, "url");
    var source :- SchemaAttr(c, "source");
    var title :- SchemaAttr(c, "title");
    var content :- SchemaAttr(c, "content");
    var flagged :- SchemaAttr(c, "flagged");
    var row := Sample(st.nextId, source.GetOr(""), url.GetOr(""), title, content.GetOr(""),
                      None, now, flagged.Some?);
    Ok((Store(st.rows + [row], st.nextId + 1), row))
  }

  /** Every call of `create_sample` as written raises `AttributeError` and
      inserts nothing. */
  lemma CreateSampleAsWrittenRaises(st: Store, c: SampleCreate, now: nat)
    ensures CreateSampleAsWritten(st, c, now) == Raise(AttributeError)
  {
  }

  /** The row `create_sample` inserts, with the line reading `flagged` taken
      as the column default `False`. `extra_metadata` is not passed to the
      row, so the stored row has none. */
  function NewRow(id: nat, c: SampleCreate, now: nat): Sample {
    Sample(id, c.source, c.url, c.title, c.content, None, now, false)
  }

  function Inserted(st: Store, c: SampleCreate, now: nat): Store {
    Store(st.rows + [NewRow(st.nextId, c, now)], st.nextId + 1)
  }

  // ---------------------------------------------------------------------
  // get_samples

  /** `.offset(skip).limit(limit)` over the rows in insertion order. */
  function GetSamples(rows: seq<Sample>, skip: nat, limit: nat): (r: seq<Sample>)
    ensures |r| == if skip >= |rows| then 0 else Min(limit, |rows| - skip)
    ensures forall i :: 0 <= i < |r| ==> skip + i < |rows| && r[i] == rows[skip + i]
  {
    if skip >= |rows| then [] else Take(rows[skip..], limit)
  }

  /** `get_samples(db)` with its defaults `skip=0, limit=100`: the first
      hundred rows, or all of them when there are fewer. */
  lemma DefaultWindow(rows: seq<Sample>)
    ensures var r := GetSamples(rows, 0, DefaultLimit);
      |r| == Min(DefaultLimit, |rows|) && r == rows[..|r|]
  {
    var r := GetSamples(rows, 0, DefaultLimit);
    assert forall i :: 0 <= i < |r| ==> r[i] == rows[i];
  }

  // ---------------------------------------------------------------------
  // search_samples

  /** `title ILIKE %q% OR content ILIKE %q% OR source ILIKE %q%`. A NULL
      title makes its disjunct NULL, which never selects the row. */
  predicate Matches(s: Sample, q: string) {
    var p := Lower(q);
    || (s.title.Some? && Contains(Lower(s.title.value), p))
    || Contains(Lower(s.content), p)
    || Contains(Lower(s.source), p)
  }

  /** The rows that match `q`, each kept as often as it occurs. */
  function MatchingRows(rows: seq<Sample>, q: string): (r: seq<Sample>)
    ensures forall s :: multiset(r)[s] == if Matches(s, q) then multiset(rows)[s] else 0
  {
    if rows == [] then []
    else
      var rest := MatchingRows(rows[1..], q);
      assert rows == [rows[0]] + rows[1..];
      if Matches(rows[0], q) then [rows[0]] + rest else rest
  }

  predicate SortedDesc(r: seq<Sample>) {
    forall i, j :: 0 <= i < j < |r| ==> r[i].createdAt >= r[j].createdAt
  }

  /** A row no older than the head of a sorted list can go in front. */
  lemma ConsSorted(y: Sample, s: seq<Sample>)
    requires SortedDesc(s) && (s == [] || s[0].createdAt <= y.createdAt)
    ensures SortedDesc([y] + s)
  {
    var r := [y] + s;
    forall i, j | 0 <= i < j < |r| ensures r[i].createdAt >= r[j].createdAt {
      assert r[j] == s[j - 1];
      if i > 0 { assert r[i] == s[i - 1]; }
      else if j > 1 { assert s[0].createdAt >= s[j - 1].createdAt; }
    }
  }

  /** The recursive case of `InsertDesc`: the head of `s` stays in front of
      the insertion into the rest of `s`. */
  lemma InsertBehindHead(x: Sample, s: seq<Sample>, rest: seq<Sample>)
    requires SortedDesc(s) && s != []
    requires SortedDesc(rest) && rest != [] && rest[0].createdAt <= s[0].createdAt
    requires multiset(rest) == multiset(s[1..]) + multiset{x}
    ensures SortedDesc([s[0]] + rest)
    ensures multiset([s[0]] + rest) == multiset(s) + multiset{x}
  {
    assert s == [s[0]] + s[1..];
    ConsSorted(s[0], rest);
  }

  /** Inserts `x` into a list sorted newest first: the result is sorted,
      holds the list's rows and `x`, and starts with the newer of `x` and
      the list's first row. */
  function InsertDesc(x: Sample, s: seq<Sample>): (r: seq<Sample>)
    requires SortedDesc(s)
    ensures SortedDesc(r)
    ensures multiset(r) == multiset(s) + multiset{x}
    ensures |r| == |s| + 1
    ensures r[0] == if s == [] || x.createdAt >= s[0].createdAt then x else s[0]
  {
    if s == [] || x.createdAt >= s[0].createdAt then
      ConsSorted(x, s);
      [x] + s
    else
      assert SortedDesc(s[1..]);
      var rest := InsertDesc(x, s[1..]);
      assert |s| > 1 ==> s[0].createdAt >= s[1].createdAt;
      InsertBehindHead(x, s, rest);
      [s[0]] + rest
  }

  /** `.order_by(created_at.desc())`. */
  function SortByCreatedDesc(s: seq<Sample>): (r: seq<Sample>)
    ensures SortedDesc(r)
    ensures multiset(r) == multiset(s)
  {
    if s == [] then []
    else
      assert s == [s[0]] + s[1..];
      InsertDesc(s[0], SortByCreatedDesc(s[1..]))
  }

  /** `search_samples(q)`: with `q` None or empty every row, otherwise the
      rows matching `q`; newest first. */
  function SearchSamples(rows: seq<Sample>, q: Option<string>): (r: seq<Sample>)
    ensures SortedDesc(r)
    ensures forall s :: multiset(r)[s] ==
                          if q.None? || q.value == "" || Matches(s, q.value) then multiset(rows)[s] else 0
  {
    if q.None? || q.value == "" then SortByCreatedDesc(rows)
    else SortByCreatedDesc(MatchingRows(rows, q.value))
  }

  /** Without a non-empty query the search returns the whole table. */
  lemma SearchWithoutQueryReturnsAll(rows: seq<Sample>, q: Option<string>)
    requires q.None? || q.value == ""
    ensures multiset(SearchSamples(rows, q)) == multiset(rows)
  {
    var r := SearchSamples(rows, q);
    assert forall s :: multiset(r)[s] == multiset(rows)[s];
  }

  /** A row is in the search result exactly when it is in the table and
      matches the query. */
  lemma SearchMembership(rows: seq<Sample>, q: string, s: Sample)
    requires q != ""
    ensures s in SearchSamples(rows, Some(q)) <==> s in rows && Matches(s, q)
  {
    var r := SearchSamples(rows, Some(q));
    assert s in r <==> multiset(r)[s] > 0;
    assert s in rows <==> multiset(rows)[s] > 0;
  }

  // ---------------------------------------------------------------------
  // flag_sample

  /** `.filter(Sample.id == sample_id).first()`: the position of the first
      row with that id. */
  function FindById(rows: seq<Sample>, id: nat): (r: Option<nat>)
    ensures r.Some? ==> r.value < |rows| && rows[r.value].id == id
    ensures r.Some? ==> forall j :: 0 <= j < r.value ==> rows[j].id != id
    ensures r.None? <==> forall j :: 0 <= j < |rows| ==> rows[j].id != id
  {
    if rows == [] then None
    else if rows[0].id == id then Some(0)
    else match FindById(rows[1..], id)
      case None => None
      case Some(k) => Some(k + 1)
  }

  /** The table after `flag_sample(id, f)`. */
  function FlagRows(rows: seq<Sample>, id: nat, f: bool): seq<Sample> {
    match FindById(rows, id)
    case None => rows
    case Some(i) => rows[i := rows[i].(flagged := f)]
  }

  /** The result of `flag_sample(id, f)`: the updated row, or None. */
  function FlagResult(rows: seq<Sample>, id: nat, f: bool): Option<Sample> {
    match FindById(rows, id)
    case None => None
    case Some(i) => Some(rows[i].(flagged := f))
  }

  function Flagged(st: Store, id: nat, f: bool): Store {
    Store(FlagRows(st.rows, id, f), st.nextId)
  }

  /** `FindById` looks only at ids. */
  lemma {:induction false} FindByIdOnIds(a: seq<Sample>, b: seq<Sample>, id: nat)
    requires |a| == |b|
    requires forall j :: 0 <= j < |a| ==> a[j].id == b[j].id
    ensures FindById(a, id) == FindById(b, id)
  {
    if a != [] && a[0].id != id {
      FindByIdOnIds(a[1..], b[1..], id);
    }
  }

  /** In a valid table, `flag_sample` on an existing id changes the `flagged`
      field of the one row with that id and nothing else; on an unknown id
      it changes nothing. */
  lemma FlagEffect(st: Store, id: nat, f: bool)
    requires ValidStore(st)
    ensures var r := FlagRows(st.rows, id, f);
      && |r| == |st.rows|
      && (forall j :: 0 <= j < |r| ==>
            r[j] == if st.rows[j].id == id then st.rows[j].(flagged := f) else st.rows[j])
      && ValidStore(Flagged(st, id, f))
  {
    match FindById(st.rows, id)
    case None =>
    case Some(i) =>
      assert forall j :: 0 <= j < |st.rows| && j != i ==> st.rows[j].id != id by {
        forall j | 0 <= j < |st.rows| && j != i ensures st.rows[j].id != id {
          if j < i { assert st.rows[j].id < st.rows[i].id; } else { assert st.rows[i].id < st.rows[j].id; }
        }
      }
  }

  /** `flag_sample` twice with the same arguments is `flag_sample` once. */
  lemma FlagIdempotent(rows: seq<Sample>, id: nat, f: bool)
    ensures FlagRows(FlagRows(rows, id, f), id, f) == FlagRows(rows, id, f)
    ensures FlagResult(FlagRows(rows, id, f), id, f) == FlagResult(rows, id, f)
  {
    FindByIdOnIds(FlagRows(rows, id, f), rows, id);
  }

  // ---------------------------------------------------------------------
  // The table as a mutable object

  class SampleTable {
    var rows: seq<Sample>
    var nextId: nat

    function State(): Store
      reads this
    {
      Store(rows, nextId)
    }

    ghost predicate Valid()
      reads this
    {
      ValidStore(State())
    }

    /** An empty table; the database assigns the first row id 1. */
    constructor ()
      ensures Valid() && rows == [] && nextId == 1
    {
      rows := [];
      nextId := 1;
    }

    /** `create_sample`: inserts one row with a fresh id copying url,
        source, title and content, and returns it; the other rows are kept. */
    method CreateSample(c: SampleCreate, now: nat) returns (r: Sample)
      requires Valid()
      modifies this
      ensures Valid()
      ensures r.id == old(nextId) && forall i :: 0 <= i < |old(rows)| ==> old(rows)[i].id != r.id
      ensures r.url == c.url && r.source == c.source && r.title == c.title && r.content == c.content
      ensures r.createdAt == now && !r.flagged && r.extraMetadata.None?
      ensures rows == old(rows) + [r] && nextId == old(nextId) + 1
      ensures State() == Inserted(old(State()), c, now)
    {
      r := NewRow(nextId, c, now);
      rows := rows + [r];
      nextId := nextId + 1;
    }

    /** `flag_sample(sample_id, flagged)`: sets `flagged` on the row with
        that id and returns it, or returns None and changes nothing. */
    method FlagSample(id: nat, flagged: bool) returns (r: Option<Sample>)
      requires Valid()
      modifies this
      ensures Valid() && nextId == old(nextId)
      ensures rows == FlagRows(old(rows), id, flagged)
      ensures r == FlagResult(old(rows), id, flagged)
      ensures r.None? <==> forall j :: 0 <= j < |old(rows)| ==> old(rows)[j].id != id
      ensures r.None? ==> rows == old(rows)
      ensures r.Some? ==> r.value.id == id && r.value.flagged == flagged && r.value in rows
    {
      FlagEffect(State(), id, flagged);
      r := FlagResult(rows, id, flagged);
      rows := FlagRows(rows, id, flagged);
    }
  }
}
