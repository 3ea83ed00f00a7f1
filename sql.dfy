/** Statements built with the `SQL` template tag of sql-template-strings, as
    far as the film update script uses them: a template yields its literal
    text chunks and the values bound between them, and `append` glues a
    second statement onto the first. */
module Sql {
  import opened Js

  datatype Statement = Statement(strings: seq<string>, values: seq<Value>)

  /** One bound value between every two consecutive text chunks. */
  predicate WellFormed(st: Statement) {
    |st.strings| == |st.values| + 1
  }

  /** The statement text, with a `?` placeholder standing for each bound value. */
  function Text(chunks: seq<string>): string
    requires |chunks| > 0
  {
    if |chunks| == 1 then chunks[0]
    else Text(chunks[..|chunks| - 1]) + "?" + chunks[|chunks| - 1]
  }

  /** Adding a chunk adds a placeholder and the chunk to the text. */
  lemma TextSnoc(chunks: seq<string>, last: string)
    requires |chunks| > 0
    ensures Text(chunks + [last]) == Text(chunks) + "?" + last
  {
  }

  /** The chunks of `x` followed by those of `y`, the last of `x` and the
      first of `y` fused into one (no placeholder between them). */
  function JoinChunks(x: seq<string>, y: seq<string>): (z: seq<string>)
    requires |x| > 0 && |y| > 0
    ensures |z| == |x| + |y| - 1
  {
    x[..|x| - 1] + [x[|x| - 1] + y[0]] + y[1..]
  }

  /** `a.append(b)`. */
  function Append(a: Statement, b: Statement): (r: Statement)
    requires |a.strings| > 0 && |b.strings| > 0
    ensures WellFormed(a) && WellFormed(b) ==> WellFormed(r)
  {
    Statement(JoinChunks(a.strings, b.strings), a.values + b.values)
  }

  /** Joining chunk lists concatenates their texts. */
  lemma {:induction false} JoinChunksText(x: seq<string>, y: seq<string>)
    requires |x| > 0 && |y| > 0
    ensures Text(JoinChunks(x, y)) == Text(x) + Text(y)
  {
    var z := JoinChunks(x, y);
    if |y| == 1 {
      if |x| > 1 {
        var n := |x| - 1;
        assert z[..|z| - 1] == x[..n];
        assert z[|z| - 1] == x[n] + y[0];
        calc {
          Text(z);
          Text(x[..n]) + "?" + (x[n] + y[0]);
          (Text(x[..n]) + "?" + x[n]) + y[0];
        }
      }
    } else {
      var m := |y| - 1;
      var y0 := y[..m];
      JoinChunksText(x, y0);
      assert z[..|z| - 1] == JoinChunks(x, y0);
      assert z[|z| - 1] == y[m];
      calc {
        Text(z);
        Text(JoinChunks(x, y0)) + "?" + y[m];
        Text(x) + Text(y0) + "?" + y[m];
        Text(x) + (Text(y0) + "?" + y[m]);
      }
    }
  }

  /** Appending a statement appends its text and its bound values. */
  lemma AppendText(a: Statement, b: Statement)
    requires |a.strings| > 0 && |b.strings| > 0
    ensures Text(Append(a, b).strings) == Text(a.strings) + Text(b.strings)
    ensures Append(a, b).values == a.values + b.values
  {
    JoinChunksText(a.strings, b.strings);
  }
}
