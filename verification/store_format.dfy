/**
 * The line-oriented, comma-separated text of the identity store
 * (src/FaceIndex.cpp, saveToDisk / loadFromDisk): how a line is written, and
 * how `std::getline` splits the file into lines and a line into fields.
 * Numbers are kept as the text tokens the stream prints; turning tokens into
 * floats is the caller's concern.
 */
module StoreFormat {
  import opened Wrappers

  /** What one successful `std::getline(stream, out, delim)` yields: the field and the unread rest. */
  datatype Read = Read(field: string, rest: string)

  /**
   * `std::getline` with delimiter `delim` on a stream whose unread text is `s`.
   * It fails only when nothing is left to read; otherwise it takes characters
   * up to the first `delim` (dropping the delimiter) or to the end.
   */
  function ReadUntil(s: string, delim: char): (r: Option<Read>)
    ensures r.None? <==> s == ""
    ensures r.Some? ==> delim !in r.value.field
    ensures r.Some? ==>
      (s == r.value.field && r.value.rest == "") || s == r.value.field + [delim] + r.value.rest
    ensures r.Some? ==> |r.value.rest| < |s|
  {
    if s == "" then None
    else if s[0] == delim then Some(Read("", s[1..]))
    else match ReadUntil(s[1..], delim)
      case None => Some(Read(s, ""))
      case Some(rd) => Some(Read([s[0]] + rd.field, rd.rest))
  }

  /** Reading up to a delimiter that the text starts with after a delimiter-free prefix. */
  lemma {:induction false} ReadUntilPrefix(a: string, delim: char, b: string)
    requires delim !in a
    ensures ReadUntil(a + [delim] + b, delim) == Some(Read(a, b))
  {
    var s := a + [delim] + b;
    if a == [] {
      assert s == [delim] + b;
      assert s[1..] == b;
    } else {
      assert s[0] == a[0] && a[0] != delim;
      assert s[1..] == a[1..] + [delim] + b;
      ReadUntilPrefix(a[1..], delim, b);
      assert [a[0]] + a[1..] == a;
    }
  }

  /** Reading non-empty text that has no delimiter at all takes all of it. */
  lemma {:induction false} ReadUntilWhole(a: string, delim: char)
    requires a != "" && delim !in a
    ensures ReadUntil(a, delim) == Some(Read(a, ""))
  {
    if |a| > 1 {
      ReadUntilWhole(a[1..], delim);
      assert [a[0]] + a[1..] == a;
    }
  }

  /** The lines `while (std::getline(in, line))` produces from the file's text. */
  function SplitLines(text: string): (r: seq<string>)
    ensures forall i :: 0 <= i < |r| ==> '\n' !in r[i]
    ensures |r| <= |text|
    decreases |text|
  {
    match ReadUntil(text, '\n')
    case None => []
    case Some(rd) => [rd.field] + SplitLines(rd.rest)
  }

  /** A line body followed by a newline is split off as one line. */
  lemma {:induction false} SplitLinesCons(body: string, rest: string)
    requires '\n' !in body
    ensures SplitLines(body + "\n" + rest) == [body] + SplitLines(rest)
  {
    ReadUntilPrefix(body, '\n', rest);
  }

  /** One record of the store: a name and the value tokens read after it. */
  datatype Record = Record(name: string, fields: seq<string>)

  /** Up to `k` further comma-separated fields; reading stops at the first failed getline. */
  function ReadFields(rest: string, k: nat): (r: seq<string>)
    ensures |r| <= k
    ensures forall i :: 0 <= i < |r| ==> ',' !in r[i]
    decreases k
  {
    if k == 0 then []
    else match ReadUntil(rest, ',')
      case None => []
      case Some(rd) => [rd.field] + ReadFields(rd.rest, k - 1)
  }

  /**
   * One line of `loadFromDisk`: the name is everything up to the first comma
   * (an empty line has no name and is skipped), then at most `dim` value fields.
   */
  function ParseLine(line: string, dim: nat): (r: Option<Record>)
    ensures r.None? <==> line == ""
    ensures r.Some? ==> ',' !in r.value.name && |r.value.fields| <= dim
    ensures r.Some? ==> |r.value.name| <= |line|
  {
    match ReadUntil(line, ',')
    case None => None
    case Some(rd) => Some(Record(rd.field, ReadFields(rd.rest, dim)))
  }

  /** The text `out << ',' << v` writes for each value token in turn. */
  function JoinFields(tokens: seq<string>): (r: string)
    ensures tokens == [] <==> r == ""
    ensures tokens != [] ==> r[0] == ','
  {
    if tokens == [] then "" else "," + tokens[0] + JoinFields(tokens[1..])
  }

  /** The body of one saved line (the name, then each token after a comma); the file line adds '\n'. */
  function LineBody(name: string, tokens: seq<string>): string {
    name + JoinFields(tokens)
  }

  /** A token a float printer can produce: non-empty, with no comma and no newline. */
  predicate IsToken(t: string) {
    t != "" && ',' !in t && '\n' !in t
  }

  /** A name that survives the format: no comma and no newline. */
  predicate IsPlainName(name: string) {
    ',' !in name && '\n' !in name
  }

  lemma {:induction false} JoinFieldsNoNewline(tokens: seq<string>)
    requires forall i :: 0 <= i < |tokens| ==> IsToken(tokens[i])
    ensures '\n' !in JoinFields(tokens)
  {
    if tokens != [] {
      JoinFieldsNoNewline(tokens[1..]);
    }
  }

  /** A saved line body never contains a newline when the name has none. */
  lemma {:induction false} LineBodyNoNewline(name: string, tokens: seq<string>)
    requires '\n' !in name
    requires forall i :: 0 <= i < |tokens| ==> IsToken(tokens[i])
    ensures '\n' !in LineBody(name, tokens)
  {
    JoinFieldsNoNewline(tokens);
  }

  /** After its leading comma, JoinFields is the first token followed by the join of the rest. */
  lemma {:induction false} JoinFieldsAfterComma(tokens: seq<string>)
    requires tokens != []
    ensures JoinFields(tokens)[1..] == tokens[0] + JoinFields(tokens[1..])
  {
    assert JoinFields(tokens) == [','] + (tokens[0] + JoinFields(tokens[1..]));
  }

  /** A single token after the leading comma is read whole, and nothing more is asked for. */
  lemma {:induction false} ReadFieldsLast(tokens: seq<string>)
    requires |tokens| == 1 && IsToken(tokens[0])
    ensures ReadFields(JoinFields(tokens)[1..], 1) == tokens
  {
    JoinFieldsAfterComma(tokens);
    assert JoinFields(tokens)[1..] == tokens[0];
    ReadUntilWhole(tokens[0], ',');
  }

  /** The first token after the leading comma is read, then the join of the rest after its comma. */
  lemma {:induction false} ReadFieldsStep(tokens: seq<string>)
    requires |tokens| >= 2 && IsToken(tokens[0])
    ensures ReadFields(JoinFields(tokens)[1..], |tokens|)
         == [tokens[0]] + ReadFields(JoinFields(tokens[1..])[1..], |tokens| - 1)
  {
    var t := tokens[0];
    var tail := JoinFields(tokens[1..])[1..];
    JoinFieldsAfterComma(tokens);
    assert JoinFields(tokens[1..]) == [','] + tail;
    assert JoinFields(tokens)[1..] == t + [','] + tail;
    ReadUntilPrefix(t, ',', tail);
  }

  /** Tokens after the first are tokens too. */
  lemma {:induction false} TokensTail(tokens: seq<string>)
    requires tokens != []
    requires forall i :: 0 <= i < |tokens| ==> IsToken(tokens[i])
    ensures forall i :: 0 <= i < |tokens[1..]| ==> IsToken(tokens[1..][i])
  {
    forall i | 0 <= i < |tokens[1..]| ensures IsToken(tokens[1..][i]) {
      assert tokens[1..][i] == tokens[i + 1];
    }
  }

  /** Reading back `k` fields from the text after the first comma of JoinFields yields the tokens. */
  lemma {:induction false} ReadFieldsOfJoin(tokens: seq<string>)
    requires tokens != []
    requires forall i :: 0 <= i < |tokens| ==> IsToken(tokens[i])
    ensures ReadFields(JoinFields(tokens)[1..], |tokens|) == tokens
  {
    assert IsToken(tokens[0]);
    if |tokens| == 1 {
      ReadFieldsLast(tokens);
    } else {
      TokensTail(tokens);
      ReadFieldsStep(tokens);
      ReadFieldsOfJoin(tokens[1..]);
      assert [tokens[0]] + tokens[1..] == tokens;
    }
  }

  /**
   * Line-level round trip: a line saved from a plain name and exactly `dim`
   * tokens parses back to that name and those tokens (unless the line would be
   * empty, which only happens for an empty name with `dim` = 0).
   */
  lemma {:induction false} LineRoundTrip(name: string, tokens: seq<string>, dim: nat)
    requires IsPlainName(name)
    requires |tokens| == dim
    requires forall i :: 0 <= i < |tokens| ==> IsToken(tokens[i])
    requires name != "" || dim > 0
    ensures ParseLine(LineBody(name, tokens), dim) == Some(Record(name, tokens))
  {
    if tokens == [] {
      assert LineBody(name, tokens) == name;
      ReadUntilWhole(name, ',');
    } else {
      var j := JoinFields(tokens);
      assert LineBody(name, tokens) == name + [','] + j[1..];
      ReadUntilPrefix(name, ',', j[1..]);
      ReadFieldsOfJoin(tokens);
    }
  }

  /** An empty name with no values saves as an empty line, which loading skips. */
  lemma {:induction false} EmptyLineDropped(dim: nat)
    requires dim == 0
    ensures ParseLine(LineBody("", []), dim) == None
  {
  }

  /** A name containing a comma is cut at its first comma when the line is read back. */
  lemma {:induction false} NameCutAtComma(name: string, tokens: seq<string>, dim: nat, i: nat)
    requires i < |name| && name[i] == ',' && ',' !in name[..i]
    ensures ParseLine(LineBody(name, tokens), dim).Some?
    ensures ParseLine(LineBody(name, tokens), dim).value.name == name[..i]
  {
    var rest := name[i + 1..] + JoinFields(tokens);
    assert LineBody(name, tokens) == name[..i] + [','] + rest;
    ReadUntilPrefix(name[..i], ',', rest);
  }
}
