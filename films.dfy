/** Turning the rows of the two Letterboxd CSV exports into film records
    (`transformFilms`) and merging the two record lists (`main`). */
module Films {
  import opened Js

  /** A parsed CSV row: column name to cell text; a missing column is absent. */
  type Row = map<string, string>

  const WatchedDateColumn := "Watched Date"
  const DateColumn := "Date"
  const NameColumn := "Name"
  const YearColumn := "Year"
  const LinkColumn := "Letterboxd URI"
  const RatingColumn := "Rating"

  /** The status tags the update script passes for the diary and the watchlist. */
  const Watched := "watched"
  const ToWatch := "towatch"

  /** One film record. `year` and `rating` stay CSV strings (or null):
      nothing in the script converts them to numbers. */
  datatype Film = Film(
    dateUpdated: Value,
    name: Value,
    year: Value,
    link: Value,
    rating: Value,
    status: string)

  /** `row[column]` in JavaScript: the cell text, or `undefined` when the column is missing. */
  function Cell(row: Row, column: string): Value {
    if column in row then Str(row[column]) else Undefined
  }

  /** A column that is present and non-empty. */
  predicate Filled(row: Row, column: string) {
    column in row && row[column] != ""
  }

  /** The callback of the `map` step: builds the record for one row. */
  function ToFilm(row: Row, status: string): Film {
    Film(
      Or(Cell(row, WatchedDateColumn), Cell(row, DateColumn)),
      Cell(row, NameColumn),
      Or(Cell(row, YearColumn), Null),
      Cell(row, LinkColumn),
      Or(Cell(row, RatingColumn), Null),
      status)
  }

  /** The callback of the `filter` step: `name && year && link`. */
  predicate Keep(f: Film) {
    Truthy(f.name) && Truthy(f.year) && Truthy(f.link)
  }

  /** `rows.map(...)`. */
  function MapRows(rows: seq<Row>, status: string): seq<Film> {
    seq(|rows|, i requires 0 <= i < |rows| => ToFilm(rows[i], status))
  }

  /** `films.filter(Keep)`: the kept records, in their original order. */
  function FilterKept(films: seq<Film>): (kept: seq<Film>)
    ensures |kept| <= |films|
    ensures forall k :: 0 <= k < |kept| ==> Keep(kept[k])
  {
    if films == [] then []
    else
      var last := films[|films| - 1];
      FilterKept(films[..|films| - 1]) + (if Keep(last) then [last] else [])
  }

  /** `transformFilms(filmArray, status)`: map every row to a record, then
      drop the records lacking a name, a year or a link. */
  function TransformFilms(rows: seq<Row>, status: string): (films: seq<Film>)
    ensures |films| <= |rows|
    ensures forall k :: 0 <= k < |films| ==> Keep(films[k]) && films[k].status == status
  {
    var mapped := MapRows(rows, status);
    FilterKeptAt(mapped);
    FilterKept(mapped)
  }

  /** `[...watched, ...towatch]`. */
  function Merge(watched: seq<Film>, towatch: seq<Film>): (merged: seq<Film>)
    ensures |merged| == |watched| + |towatch|
    ensures merged[..|watched|] == watched && merged[|watched|..] == towatch
  {
    watched + towatch
  }

  /** The list `main` hands to `insertRecords`: the diary rows as watched
      films followed by the watchlist rows as films to watch. */
  function MergedRecords(diary: seq<Row>, watchlist: seq<Row>): seq<Film> {
    Merge(TransformFilms(diary, Watched), TransformFilms(watchlist, ToWatch))
  }

  // ---------------------------------------------------------------------
  // The fields of one record

  /** What each field of a record is, in terms of the row it came from. */
  lemma ToFilmFields(row: Row, status: string)
    ensures var f := ToFilm(row, status);
      && f.dateUpdated == (if Filled(row, WatchedDateColumn) then Str(row[WatchedDateColumn]) else Cell(row, DateColumn))
      && f.name == Cell(row, NameColumn)
      && f.year == (if Filled(row, YearColumn) then Str(row[YearColumn]) else Null)
      && f.link == Cell(row, LinkColumn)
      && f.rating == (if Filled(row, RatingColumn) then Str(row[RatingColumn]) else Null)
      && f.status == status
  {
  }

  /** A row survives the filter exactly when its name, year and link columns
      are present and non-empty; the surviving record carries their text. */
  lemma RowKeptIff(row: Row, status: string)
    ensures Keep(ToFilm(row, status)) <==>
      Filled(row, NameColumn) && Filled(row, YearColumn) && Filled(row, LinkColumn)
    ensures Keep(ToFilm(row, status)) ==>
      && ToFilm(row, status).name == Str(row[NameColumn])
      && ToFilm(row, status).year == Str(row[YearColumn])
      && ToFilm(row, status).link == Str(row[LinkColumn])
  {
  }

  // ---------------------------------------------------------------------
  // Order: the filter keeps exactly the passing records, in order

  /** The positions of the records that pass the filter, in increasing order. */
  function KeptPositions(films: seq<Film>): seq<nat> {
    if films == [] then []
    else KeptPositions(films[..|films| - 1]) + (if Keep(films[|films| - 1]) then [|films| - 1] else [])
  }

  /** The filter's output is its input read at KeptPositions. */
  lemma {:induction false} FilterKeptAt(films: seq<Film>)
    ensures |KeptPositions(films)| == |FilterKept(films)|
    ensures forall k :: 0 <= k < |KeptPositions(films)| ==>
      KeptPositions(films)[k] < |films| && FilterKept(films)[k] == films[KeptPositions(films)[k]]
  {
    if films != [] {
      var n := |films| - 1;
      var init, last := films[..n], films[n];
      FilterKeptAt(init);
      var at0, kept0 := KeptPositions(init), FilterKept(init);
      assert KeptPositions(films) == at0 + (if Keep(last) then [n] else []);
      assert FilterKept(films) == kept0 + (if Keep(last) then [last] else []);
      forall k | 0 <= k < |at0| ensures at0[k] < n && kept0[k] == films[at0[k]] {
        assert init[at0[k]] == films[at0[k]];
      }
    }
  }

  /** KeptPositions increase and lie below the length of the input. */
  lemma {:induction false} KeptPositionsIncrease(films: seq<Film>)
    ensures forall k :: 0 <= k < |KeptPositions(films)| ==> KeptPositions(films)[k] < |films|
    ensures forall k, l :: 0 <= k < l < |KeptPositions(films)| ==>
      KeptPositions(films)[k] < KeptPositions(films)[l]
  {
    if films != [] {
      var n := |films| - 1;
      KeptPositionsIncrease(films[..n]);
    }
  }

  /** A position is among KeptPositions exactly when its record passes the filter. */
  lemma {:induction false} KeptPositionsExactly(films: seq<Film>)
    ensures forall i :: 0 <= i < |films| ==> (Keep(films[i]) <==> i in KeptPositions(films))
  {
    if films != [] {
      var n := |films| - 1;
      var init := films[..n];
      KeptPositionsIncrease(init);
      KeptPositionsExactly(init);
      var at0 := KeptPositions(init);
      var tailAt: seq<nat> := if Keep(films[n]) then [n] else [];
      assert KeptPositions(films) == at0 + tailAt;
      forall i | 0 <= i < |films| ensures Keep(films[i]) <==> i in at0 + tailAt {
        if i < n {
          assert init[i] == films[i];
          assert i !in tailAt;
        } else {
          assert i !in at0;
        }
      }
    }
  }

  /** `transformFilms` keeps input order: its output is, position by position,
      the records of exactly those rows that pass the filter, in row order. */
  lemma TransformKeepsOrder(rows: seq<Row>, status: string)
    ensures var films, at := TransformFilms(rows, status), KeptPositions(MapRows(rows, status));
      && |at| == |films|
      && (forall k :: 0 <= k < |at| ==> at[k] < |rows| && films[k] == ToFilm(rows[at[k]], status))
      && (forall k, l :: 0 <= k < l < |at| ==> at[k] < at[l])
      && (forall i :: 0 <= i < |rows| ==> (Keep(ToFilm(rows[i], status)) <==> i in at))
  {
    var mapped := MapRows(rows, status);
    FilterKeptAt(mapped);
    KeptPositionsIncrease(mapped);
    KeptPositionsExactly(mapped);
  }

  /** Filtering distributes over concatenation. */
  lemma {:induction false} FilterKeptAppend(a: seq<Film>, b: seq<Film>)
    ensures FilterKept(a + b) == FilterKept(a) + FilterKept(b)
  {
    if b == [] {
      assert a + b == a;
    } else {
      var init, last := b[..|b| - 1], b[|b| - 1];
      FilterKeptAppend(a, init);
      assert (a + b)[..|a + b| - 1] == a + init;
      assert (a + b)[|a + b| - 1] == last;
      var tail := if Keep(last) then [last] else [];
      calc {
        FilterKept(a + b);
        FilterKept(a + init) + tail;
        FilterKept(a) + FilterKept(init) + tail;
        FilterKept(a) + (FilterKept(init) + tail);
        FilterKept(a) + FilterKept(b);
      }
    }
  }

  /** Transforming two blocks of rows is transforming each block and concatenating. */
  lemma TransformAppend(a: seq<Row>, b: seq<Row>, status: string)
    ensures TransformFilms(a + b, status) == TransformFilms(a, status) + TransformFilms(b, status)
  {
    assert MapRows(a + b, status) == MapRows(a, status) + MapRows(b, status);
    FilterKeptAppend(MapRows(a, status), MapRows(b, status));
  }

  /** A list whose records all pass the filter comes through it unchanged. */
  lemma {:induction false} FilterKeptAllKept(films: seq<Film>)
    requires forall k :: 0 <= k < |films| ==> Keep(films[k])
    ensures FilterKept(films) == films
  {
    if films != [] {
      var n := |films| - 1;
      var init := films[..n];
      assert forall k :: 0 <= k < |init| ==> init[k] == films[k];
      FilterKeptAllKept(init);
      assert init + [films[n]] == films;
    }
  }

  /** Filtering the output of `transformFilms` again changes nothing. */
  lemma TransformStable(rows: seq<Row>, status: string)
    ensures FilterKept(TransformFilms(rows, status)) == TransformFilms(rows, status)
  {
    FilterKeptAllKept(TransformFilms(rows, status));
  }

  // ---------------------------------------------------------------------
  // The merged list

  /** The merged list holds the watched records first, then the films to
      watch, each group in row order; every record is valid. */
  lemma MergedRecordsOrdered(diary: seq<Row>, watchlist: seq<Row>)
    ensures var merged, watched := MergedRecords(diary, watchlist), TransformFilms(diary, Watched);
      && |merged| <= |diary| + |watchlist|
      && merged[..|watched|] == watched
      && merged[|watched|..] == TransformFilms(watchlist, ToWatch)
      && (forall i :: 0 <= i < |merged| ==> Keep(merged[i]))
      && (forall i :: 0 <= i < |merged| ==> (merged[i].status == Watched <==> i < |watched|))
      && (forall i, j :: 0 <= i < j < |merged| && merged[j].status == Watched ==> merged[i].status == Watched)
  {
  }

  // ---------------------------------------------------------------------
  // Concrete rows

  /** A diary row has its `Watched Date`; a watchlist row has only `Date`. */
  lemma DateFallbackExamples()
    ensures ToFilm(map[WatchedDateColumn := "2021-05-01"], Watched).dateUpdated == Str("2021-05-01")
    ensures ToFilm(map[DateColumn := "2021-06-01"], ToWatch).dateUpdated == Str("2021-06-01")
    ensures ToFilm(map[WatchedDateColumn := "", DateColumn := "2021-06-01"], ToWatch).dateUpdated == Str("2021-06-01")
    ensures ToFilm(map[], Watched).dateUpdated == Undefined
  {
  }

  /** Three diary rows, the second of them without a year, and two valid
      watchlist rows merge into four records: the two complete diary rows as
      watched films, then the two watchlist rows as films to watch. */
  lemma MergeExample(alien: Row, heat: Row, ran: Row, jaws: Row, zodiac: Row)
    requires Filled(alien, NameColumn) && Filled(alien, YearColumn) && Filled(alien, LinkColumn)
    requires Filled(heat, NameColumn) && !Filled(heat, YearColumn) && Filled(heat, LinkColumn)
    requires Filled(ran, NameColumn) && Filled(ran, YearColumn) && Filled(ran, LinkColumn)
    requires Filled(jaws, NameColumn) && Filled(jaws, YearColumn) && Filled(jaws, LinkColumn)
    requires Filled(zodiac, NameColumn) && Filled(zodiac, YearColumn) && Filled(zodiac, LinkColumn)
    ensures MergedRecords([alien, heat, ran], [jaws, zodiac]) ==
      [ToFilm(alien, Watched), ToFilm(ran, Watched), ToFilm(jaws, ToWatch), ToFilm(zodiac, ToWatch)]
  {
    DiaryExample(alien, heat, ran);
    RowKeptIff(jaws, ToWatch);
    RowKeptIff(zodiac, ToWatch);
    TransformSingle(jaws, ToWatch);
    TransformSingle(zodiac, ToWatch);
    TransformAppend([jaws], [zodiac], ToWatch);
    assert [jaws] + [zodiac] == [jaws, zodiac];
  }

  /** The diary half of MergeExample: the row without a year is dropped. */
  lemma DiaryExample(alien: Row, heat: Row, ran: Row)
    requires Filled(alien, NameColumn) && Filled(alien, YearColumn) && Filled(alien, LinkColumn)
    requires !Filled(heat, YearColumn)
    requires Filled(ran, NameColumn) && Filled(ran, YearColumn) && Filled(ran, LinkColumn)
    ensures TransformFilms([alien, heat, ran], Watched) == [ToFilm(alien, Watched), ToFilm(ran, Watched)]
  {
    RowKeptIff(alien, Watched);
    RowKeptIff(heat, Watched);
    RowKeptIff(ran, Watched);
    TransformSingle(alien, Watched);
    TransformSingle(heat, Watched);
    TransformSingle(ran, Watched);
    TransformAppend([alien], [heat], Watched);
    TransformAppend([alien, heat], [ran], Watched);
    assert [alien] + [heat] == [alien, heat] && [alien, heat] + [ran] == [alien, heat, ran];
  }

  /** A single row becomes a one-record list when it passes the filter, and nothing otherwise. */
  lemma TransformSingle(row: Row, status: string)
    ensures TransformFilms([row], status) ==
      if Keep(ToFilm(row, status)) then [ToFilm(row, status)] else []
  {
  }
}
