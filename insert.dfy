/** `insertRecords`: one multi-row INSERT statement built record by record,
    where a fragment that fails to append is logged and skipped, and where
    a failure to run the statement is logged and swallowed. */
module Insert {
  import opened Js
  import opened Films
  import opened Sql

  /** What `insertRecords` writes to the error console. */
  datatype LogEntry =
    | BuildFailed(position: nat)  // "Failed to build query" for records[position]
    | RunFailed                   // "Failed to run query"

  const InsertOpen := "INSERT INTO films (name, year, link, status, date_updated) VALUES ("
  const Separators: seq<string> := [", ", ", ", ", ", ", "]

  /** The five columns bound for one record; `rating` is not among them. */
  function Tuple(f: Film): seq<Value> {
    [f.name, f.year, f.link, Str(f.status), f.dateUpdated]
  }

  /** The statement the first record starts: `INSERT INTO films (...) VALUES (...)`. */
  function Head(f: Film): Statement {
    Statement([InsertOpen] + Separators + [")"], Tuple(f))
  }

  /** The fragment every later record appends: `,(...)`. */
  function Fragment(f: Film): Statement {
    Statement([",("] + Separators + [")"], Tuple(f))
  }

  // ---------------------------------------------------------------------
  // The statement for a list of records, defined without the loop

  /** The chunks between the head tuple and the last tuple, for `j` tuples after the first. */
  function Middle(j: nat): seq<string> {
    if j == 0 then [] else Middle(j - 1) + Separators + ["),("]
  }

  /** The text chunks of an INSERT of `k` tuples. */
  function Chunks(k: nat): (chunks: seq<string>)
    requires k > 0
    ensures |chunks| == 5 * k + 1
  {
    MiddleLength(k - 1);
    [InsertOpen] + Middle(k - 1) + Separators + [")"]
  }

  lemma {:induction false} MiddleLength(j: nat)
    ensures |Middle(j)| == 5 * j
  {
    if j > 0 {
      MiddleLength(j - 1);
    }
  }

  /** The values bound for `films`: their tuples one after another. */
  function Bound(films: seq<Film>): seq<Value> {
    if films == [] then [] else Bound(films[..|films| - 1]) + Tuple(films[|films| - 1])
  }

  /** The statement inserting `films`, one tuple per film, in order. */
  function StatementFor(films: seq<Film>): Statement
    requires films != []
  {
    Statement(Chunks(|films|), Bound(films))
  }

  /** The records that keep their tuple: the first one, which is never
      appended, and every later one whose append succeeded. */
  function Survivors(records: seq<Film>, appendOk: nat -> bool): (kept: seq<Film>)
    ensures |kept| <= |records|
    ensures records != [] ==> kept != [] && kept[0] == records[0]
  {
    if records == [] then []
    else
      var n := |records| - 1;
      Survivors(records[..n], appendOk) + (if n == 0 || appendOk(n) then [records[n]] else [])
  }

  /** The build failures logged while handling the first `n` records. */
  function BuildFailures(n: nat, appendOk: nat -> bool): seq<LogEntry> {
    if n == 0 then []
    else BuildFailures(n - 1, appendOk) + (if n - 1 != 0 && !appendOk(n - 1) then [BuildFailed(n - 1)] else [])
  }

  // ---------------------------------------------------------------------
  // The builder

  /** `insertRecords(records, db)`: `appendOk(i)` says whether appending the
      fragment of `records[i]` succeeds, and `runQuery(query)` whether the
      database accepts the finished statement (`None` is `undefined`).
      Returns the statement handed to the database and the error log. */
  method InsertRecords(records: seq<Film>, appendOk: nat -> bool, runQuery: Option<Statement> -> bool)
    returns (query: Option<Statement>, log: seq<LogEntry>)
    ensures query.None? <==> records == []
    ensures query.Some? ==> query.value == StatementFor(Survivors(records, appendOk))
    ensures log == BuildFailures(|records|, appendOk) + (if runQuery(query) then [] else [RunFailed])
  {
    query := None;
    log := [];
    for i := 0 to |records|
      invariant query.None? <==> i == 0
      invariant query.Some? ==> query.value == StatementFor(Survivors(records[..i], appendOk))
      invariant log == BuildFailures(i, appendOk)
    {
      SurvivorsStep(records, i, appendOk);
      var film := records[i];
      if i == 0 {
        query := Some(Head(film));
        HeadStatement(film);
      } else {
        var fragment := Fragment(film);
        if appendOk(i) {
          AppendFragment(Survivors(records[..i], appendOk), film);
          query := Some(Append(query.value, fragment));
        } else {
          log := log + [BuildFailed(i)];
        }
      }
    }
    assert records[..|records|] == records;
    if !runQuery(query) {
      log := log + [RunFailed];
    }
  }

  // ---------------------------------------------------------------------
  // What the statement is

  /** One more record: the survivors and the build failures of the first `i + 1` records. */
  lemma SurvivorsStep(records: seq<Film>, i: nat, appendOk: nat -> bool)
    requires i < |records|
    ensures i == 0 || appendOk(i) ==>
      Survivors(records[..i + 1], appendOk) == Survivors(records[..i], appendOk) + [records[i]]
    ensures i != 0 && !appendOk(i) ==>
      Survivors(records[..i + 1], appendOk) == Survivors(records[..i], appendOk)
    ensures i != 0 && !appendOk(i) ==>
      BuildFailures(i + 1, appendOk) == BuildFailures(i, appendOk) + [BuildFailed(i)]
    ensures i == 0 || appendOk(i) ==> BuildFailures(i + 1, appendOk) == BuildFailures(i, appendOk)
  {
    assert records[..i + 1][..i] == records[..i];
    assert Survivors(records[..i], appendOk) + [] == Survivors(records[..i], appendOk);
    assert BuildFailures(i, appendOk) + [] == BuildFailures(i, appendOk);
  }

  /** The first record's statement is the statement for that record alone. */
  lemma HeadStatement(f: Film)
    ensures Head(f) == StatementFor([f])
  {
    assert Middle(0) == [] && Bound([f]) == Tuple(f);
  }

  /** Appending a fragment to the statement for `films` gives the statement for `films + [f]`. */
  lemma AppendFragment(films: seq<Film>, f: Film)
    requires films != []
    ensures Append(StatementFor(films), Fragment(f)) == StatementFor(films + [f])
  {
    var k := |films|;
    MiddleLength(k - 1);
    var x, y := Chunks(k), Fragment(f).strings;
    assert Middle(k) == Middle(k - 1) + Separators + ["),("];
    assert x[..|x| - 1] == [InsertOpen] + Middle(k - 1) + Separators;
    assert x[|x| - 1] + y[0] == ")" + ",(" == "),(";
    assert y[1..] == Separators + [")"];
    assert JoinChunks(x, y) == Chunks(k + 1);
    assert (films + [f])[..k] == films;
  }

  /** The statement is well formed: one placeholder per bound value. */
  lemma {:induction false} BoundLength(films: seq<Film>)
    ensures |Bound(films)| == 5 * |films|
    ensures films != [] ==> WellFormed(StatementFor(films))
  {
    if films != [] {
      BoundLength(films[..|films| - 1]);
    }
  }

  /** The values bound for the k-th film are exactly its tuple, at positions 5k to 5k+4. */
  lemma {:induction false} BoundTuples(films: seq<Film>)
    ensures |Bound(films)| == 5 * |films|
    ensures forall k :: 0 <= k < |films| ==> Bound(films)[5 * k .. 5 * k + 5] == Tuple(films[k])
  {
    BoundLength(films);
    if films != [] {
      var n := |films| - 1;
      var init := films[..n];
      BoundTuples(init);
      BoundLength(init);
      forall k | 0 <= k < |films| ensures Bound(films)[5 * k .. 5 * k + 5] == Tuple(films[k]) {
        if k < n {
          assert init[k] == films[k];
          assert Bound(films)[5 * k .. 5 * k + 5] == Bound(init)[5 * k .. 5 * k + 5];
        } else {
          assert Bound(films)[5 * k .. 5 * k + 5] == Tuple(films[n]);
        }
      }
    }
  }

  /** Ratings never reach the statement: films that differ only in their
      ratings produce the same bound values. */
  lemma {:induction false} BoundIgnoresRating(films: seq<Film>, other: seq<Film>)
    requires |films| == |other|
    requires forall k :: 0 <= k < |films| ==> other[k] == films[k].(rating := other[k].rating)
    ensures Bound(films) == Bound(other)
  {
    if films != [] {
      var n := |films| - 1;
      BoundIgnoresRating(films[..n], other[..n]);
    }
  }

  const InsertPrefix := "INSERT INTO films (name, year, link, status, date_updated) VALUES "
  const TupleText := "(?, ?, ?, ?, ?)"

  /** `j` further tuples, each introduced by a comma. */
  function MoreTuples(j: nat): string {
    if j == 0 then "" else MoreTuples(j - 1) + "," + TupleText
  }

  /** The text of six chunks. */
  lemma TextOfSix(a: string, b: string, c: string, d: string, e: string, f: string)
    ensures Text([a, b, c, d, e, f]) == a + "?" + b + "?" + c + "?" + d + "?" + e + "?" + f
  {
    TextSnoc([a], b);
    assert [a] + [b] == [a, b];
    TextSnoc([a, b], c);
    assert [a, b] + [c] == [a, b, c];
    TextSnoc([a, b, c], d);
    assert [a, b, c] + [d] == [a, b, c, d];
    TextSnoc([a, b, c, d], e);
    assert [a, b, c, d] + [e] == [a, b, c, d, e];
    TextSnoc([a, b, c, d, e], f);
    assert [a, b, c, d, e] + [f] == [a, b, c, d, e, f];
  }

  /** The text of the head chunks. */
  lemma HeadText()
    ensures Text([InsertOpen] + Separators + [")"]) == InsertPrefix + TupleText
  {
    assert [InsertOpen] + Separators + [")"] == [InsertOpen, ", ", ", ", ", ", ", ", ")"];
    TextOfSix(InsertOpen, ", ", ", ", ", ", ", ", ")");
  }

  /** The text of the fragment chunks. */
  lemma FragmentText()
    ensures Text([",("] + Separators + [")"]) == "," + TupleText
  {
    assert [",("] + Separators + [")"] == [",(", ", ", ", ", ", ", ", ", ")"];
    TextOfSix(",(", ", ", ", ", ", ", ", ", ")");
  }

  /** The statement for `k` films reads `INSERT INTO films (...) VALUES (?, ?, ?, ?, ?)`
      followed by `,(?, ?, ?, ?, ?)` for every further film. */
  lemma {:induction false} StatementText(k: nat)
    requires k > 0
    ensures Text(Chunks(k)) == InsertPrefix + TupleText + MoreTuples(k - 1)
  {
    if k == 1 {
      assert Chunks(1) == [InsertOpen] + Separators + [")"];
      HeadText();
    } else {
      var f := Film(Undefined, Undefined, Undefined, Undefined, Undefined, "");
      var films := seq(k - 1, _ => f);
      AppendFragment(films, f);
      assert |films + [f]| == k;
      var y := Fragment(f).strings;
      JoinChunksText(Chunks(k - 1), y);
      StatementText(k - 1);
      FragmentText();
    }
  }

  // ---------------------------------------------------------------------
  // Which records keep their tuple

  /** When every append succeeds, every record has its tuple, in order. */
  lemma {:induction false} SurvivorsAllAppended(records: seq<Film>, appendOk: nat -> bool)
    requires forall i :: 1 <= i < |records| ==> appendOk(i)
    ensures Survivors(records, appendOk) == records
    ensures BuildFailures(|records|, appendOk) == []
  {
    if records != [] {
      var n := |records| - 1;
      SurvivorsAllAppended(records[..n], appendOk);
    }
  }

  /** A failed append drops only its own record; the records after it are still inserted. */
  lemma {:induction false} SurvivorsDropOne(records: seq<Film>, appendOk: nat -> bool, j: nat)
    requires 1 <= j < |records| && !appendOk(j)
    requires forall i :: 1 <= i < |records| && i != j ==> appendOk(i)
    ensures Survivors(records, appendOk) == records[..j] + records[j + 1..]
    ensures BuildFailures(|records|, appendOk) == [BuildFailed(j)]
  {
    var n := |records| - 1;
    var init := records[..n];
    if n == j {
      SurvivorsAllAppended(init, appendOk);
      assert records[j + 1..] == [];
    } else {
      SurvivorsDropOne(init, appendOk, j);
      assert init[..j] == records[..j];
      assert init[j + 1..] + [records[n]] == records[j + 1..];
    }
  }

  /** The positions whose record keeps its tuple: 0, and every later `i` with `appendOk(i)`, in order. */
  function SurvivorPositions(n: nat, appendOk: nat -> bool): seq<nat> {
    if n == 0 then []
    else SurvivorPositions(n - 1, appendOk) + (if n - 1 == 0 || appendOk(n - 1) then [n - 1] else [])
  }

  /** The survivors are the records at SurvivorPositions, in order: a record
      keeps its tuple exactly when it is the first or its own append succeeded,
      whatever happened to the appends of the other records. */
  lemma {:induction false} SurvivorsAt(records: seq<Film>, appendOk: nat -> bool)
    ensures var at := SurvivorPositions(|records|, appendOk);
      && |at| == |Survivors(records, appendOk)|
      && (forall k :: 0 <= k < |at| ==> at[k] < |records| && Survivors(records, appendOk)[k] == records[at[k]])
      && (forall k, l :: 0 <= k < l < |at| ==> at[k] < at[l])
      && (forall i :: 0 <= i < |records| ==> (i in at <==> i == 0 || appendOk(i)))
  {
    if records != [] {
      var n := |records| - 1;
      var init := records[..n];
      SurvivorsAt(init, appendOk);
      var at0 := SurvivorPositions(n, appendOk);
      var tailAt: seq<nat> := if n == 0 || appendOk(n) then [n] else [];
      assert SurvivorPositions(|records|, appendOk) == at0 + tailAt;
      forall k | 0 <= k < |at0| ensures Survivors(init, appendOk)[k] == records[at0[k]] {
        assert init[at0[k]] == records[at0[k]];
      }
      forall i | 0 <= i < |records| ensures i in at0 + tailAt <==> i == 0 || appendOk(i) {
        if i == n {
          assert i !in at0;
        }
      }
    }
  }

  /** Every record either keeps its tuple or is logged as a build failure. */
  lemma {:induction false} SurvivorsOrLogged(records: seq<Film>, appendOk: nat -> bool)
    ensures |Survivors(records, appendOk)| + |BuildFailures(|records|, appendOk)| == |records|
    ensures forall i: nat :: BuildFailed(i) in BuildFailures(|records|, appendOk) <==>
      1 <= i < |records| && !appendOk(i)
  {
    if records != [] {
      var n := |records| - 1;
      SurvivorsOrLogged(records[..n], appendOk);
    }
  }
}
