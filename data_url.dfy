/** The payload of the `data:` URL that the browser hands back for the
    downloaded export: `url.split(',')[1]`. A data URL has the form
    `data:[<mediatype>][;base64],<data>` (section 3 of RFC 2397). */
module DataUrl {
  import opened Js

  /** JavaScript `s.split(sep)` for a one-character separator: the pieces
      between separators, so always at least one (`"".split(",")` is `[""]`). */
  function Split(s: string, sep: char): (parts: seq<string>)
    ensures |parts| >= 1
    ensures |parts| > 1 <==> sep in s
    ensures forall k :: 0 <= k < |parts| ==> sep !in parts[k]
  {
    if s == [] then [""]
    else if s[0] == sep then [""] + Split(s[1..], sep)
    else
      var rest := Split(s[1..], sep);
      [[s[0]] + rest[0]] + rest[1..]
  }

  /** JavaScript `parts.join(sep)`. */
  function Join(parts: seq<string>, sep: char): string
    requires |parts| >= 1
  {
    if |parts| == 1 then parts[0] else parts[0] + [sep] + Join(parts[1..], sep)
  }

  /** Joining the pieces of a split gives back the original string. */
  lemma {:induction false} JoinSplit(s: string, sep: char)
    ensures Join(Split(s, sep), sep) == s
  {
    if s != [] {
      JoinSplit(s[1..], sep);
      var rest := Split(s[1..], sep);
      if s[0] == sep {
        assert Split(s, sep)[1..] == rest;
      } else {
        var parts := Split(s, sep);
        assert parts[1..] == rest[1..];
      }
    }
  }

  /** Splitting a string that starts with a separator-free piece. */
  lemma {:induction false} SplitPrefix(p: string, s: string, sep: char)
    requires sep !in p
    ensures Split(p + s, sep) == [p + Split(s, sep)[0]] + Split(s, sep)[1..]
  {
    var parts := Split(s, sep);
    if p == [] {
      assert p + s == s && p + parts[0] == parts[0];
      assert parts == [parts[0]] + parts[1..];
    } else {
      SplitPrefix(p[1..], s, sep);
      var q := p + s;
      assert q[1..] == p[1..] + s;
      assert q[0] == p[0] && p[0] != sep;
      var rest := Split(q[1..], sep);
      assert rest == [p[1..] + parts[0]] + parts[1..];
      assert Split(q, sep) == [[p[0]] + rest[0]] + rest[1..];
      assert [p[0]] + (p[1..] + parts[0]) == p + parts[0];
    }
  }

  /** Splitting the join of separator-free pieces gives back the pieces. */
  lemma {:induction false} SplitJoin(parts: seq<string>, sep: char)
    requires |parts| >= 1
    requires forall k :: 0 <= k < |parts| ==> sep !in parts[k]
    ensures Split(Join(parts, sep), sep) == parts
  {
    var first := parts[0];
    if |parts| == 1 {
      SplitPrefix(first, [], sep);
      assert first + [] == first;
      assert Split([], sep) == [""];
      assert first + "" == first;
    } else {
      var tail := parts[1..];
      assert forall k :: 0 <= k < |tail| ==> tail[k] == parts[k + 1];
      SplitJoin(tail, sep);
      var joined := Join(tail, sep);
      var rest := [sep] + joined;
      assert rest[0] == sep && rest[1..] == joined;
      assert Split(rest, sep) == [""] + tail;
      SplitPrefix(first, rest, sep);
      assert Join(parts, sep) == first + rest;
      assert first + "" == first;
      assert ([""] + tail)[1..] == tail;
    }
  }

  /** `url.split(',')[1]`: the text between the first comma and the next one
      (or the end); `undefined` when the URL has no comma. */
  function Payload(url: string): (payload: Option<string>)
    ensures payload.Some? <==> ',' in url
    ensures payload.Some? ==> ',' !in payload.value
  {
    var parts := Split(url, ',');
    if |parts| > 1 then Some(parts[1]) else None
  }

  /** For a data URL whose header has no comma, the payload is the data after
      the comma when the data itself has none, as with base64 data. */
  lemma PayloadOfDataUrl(header: string, data: string)
    requires ',' !in header && ',' !in data
    ensures Payload(header + [','] + data) == Some(data)
  {
    SplitJoin([header, data], ',');
    assert Join([header, data], ',') == header + [','] + Join([data], ',');
  }

  /** Data after a further comma is cut off at that comma. */
  lemma PayloadStopsAtComma(header: string, data: string, more: string)
    requires ',' !in header && ',' !in data
    ensures Payload(header + [','] + data + [','] + more) == Some(data)
  {
    var pieces := Split(more, ',');
    JoinSplit(more, ',');
    var all := [header, data] + pieces;
    assert forall k :: 2 <= k < |all| ==> all[k] == pieces[k - 2];
    SplitJoin(all, ',');
    assert all[1..] == [data] + pieces;
    assert ([data] + pieces)[1..] == pieces;
    assert Join([data] + pieces, ',') == data + [','] + more;
    assert Join(all, ',') == header + [','] + (data + [','] + more);
    assert header + [','] + data + [','] + more == header + [','] + (data + [','] + more);
  }
}
