/**
 * Persistence of the face index (src/FaceIndex.cpp, saveToDisk and
 * loadFromDisk) on top of the line format of StoreFormat. The file system is
 * reduced to what the code observes: whether the output file opened, and the
 * text of the input file if it opened. Float printing and `std::stof` are the
 * caller's `format` and `parse`.
 */
module IndexStore {
  import opened Wrappers
  import opened EmbeddingMath
  import opened FaceIndex
  import opened StoreFormat

  /** How `out << v` prints one float. */
  type Format = real -> string

  /** `std::stof`: a value, or None where it throws. */
  type Parser = string -> Option<real>

  /** The printed tokens of one stored vector. */
  function Tokens(v: Vector, format: Format): (r: seq<string>)
    ensures |r| == |v|
    ensures forall i :: 0 <= i < |v| ==> r[i] == format(v[i])
  {
    seq(|v|, i requires 0 <= i < |v| => format(v[i]))
  }

  /** The line body saved for a label that has both a name and a vector. */
  function EntryBody(ix: Index, l: Label, format: Format): string
    requires l in ix.names && l in ix.vectors
  {
    LineBody(ix.names[l], Tokens(ix.vectors[l], format))
  }

  /** No label occurs twice. */
  predicate Distinct(s: seq<Label>) {
    forall j1, j2 :: 0 <= j1 < j2 < |s| ==> s[j1] != s[j2]
  }

  /** The set of labels a sequence lists; as many as its length when they are distinct. */
  function Elems(s: seq<Label>): (r: set<Label>)
    ensures forall l :: l in r <==> l in s
    ensures Distinct(s) ==> |r| == |s|
  {
    if s == [] then {}
    else
      var init := s[..|s| - 1];
      assert forall j :: 0 <= j < |init| ==> init[j] == s[j];
      Elems(init) + {s[|s| - 1]}
  }

  /**
   * An order in which `saveToDisk` can walk `idToName`: every label that has
   * a name, each exactly once. The walk is over an unordered_map, whose order
   * the C++ standard leaves unspecified, so the order is a parameter.
   */
  predicate IsVisitOrder(ix: Index, order: seq<Label>) {
    && (forall j :: 0 <= j < |order| ==> order[j] in ix.names)
    && (forall l :: l in ix.names ==> l in order)
    && Distinct(order)
  }

  /** The labels 0, 1, ..., n-1 in increasing order. */
  function Ascending(n: nat): (r: seq<Label>)
    ensures |r| == n
    ensures forall j :: 0 <= j < n ==> r[j] == j
  {
    seq(n, j requires 0 <= j => j as Label)
  }

  /**
   * The file text for the labels order[j], order[j+1], ...: a label without a
   * name or without a stored vector is skipped, the others write their line.
   */
  function SerializeFrom(ix: Index, order: seq<Label>, j: nat, format: Format): string
    decreases |order| - j
  {
    if j >= |order| then ""
    else
      (if order[j] in ix.names && order[j] in ix.vectors then EntryBody(ix, order[j], format) + "\n" else "")
      + SerializeFrom(ix, order, j + 1, format)
  }

  /** The whole text `saveToDisk` writes when it walks the names in `order`. */
  function Serialize(ix: Index, order: seq<Label>, format: Format): string {
    SerializeFrom(ix, order, 0, format)
  }

  /**
   * `saveToDisk`: when the output file cannot be opened nothing is written;
   * otherwise the file holds the entries in the order the name map is walked.
   * The index itself is never changed (it is an argument, not a result).
   */
  function SaveToDisk(ix: Index, order: seq<Label>, canOpen: bool, format: Format): (r: Option<string>)
    requires IsVisitOrder(ix, order)
    ensures r.None? <==> !canOpen
    ensures r.Some? ==> r.value == Serialize(ix, order, format)
  {
    if canOpen then Some(Serialize(ix, order, format)) else None
  }

  /** Every label of the order has a name and a stored vector. */
  predicate InStore(ix: Index, order: seq<Label>) {
    forall j :: 0 <= j < |order| ==> order[j] in ix.names && order[j] in ix.vectors
  }

  /** In a valid index a visit order lists every stored entry, and there are `nextId` of them. */
  lemma {:induction false} VisitOrderOfValid(ix: Index, order: seq<Label>)
    requires Valid(ix) && IsVisitOrder(ix, order)
    ensures InStore(ix, order)
    ensures |order| == ix.nextId
  {
    assert Elems(order) == ix.names.Keys;
    ValidSize(ix);
  }

  /** Increasing label order is one of the orders the walk may take. */
  lemma {:induction false} AscendingIsVisitOrder(ix: Index)
    requires Valid(ix)
    ensures IsVisitOrder(ix, Ascending(ix.nextId))
  {
    var order := Ascending(ix.nextId);
    forall l | l in ix.names ensures l in order {
      assert order[l] == l;
    }
  }

  /** The saved line bodies, one per label of the order. */
  function SavedLines(ix: Index, order: seq<Label>, format: Format): (r: seq<string>)
    requires InStore(ix, order)
    ensures |r| == |order|
  {
    seq(|order|, j requires 0 <= j < |order| => EntryBody(ix, order[j], format))
  }

  /** Every saved name survives the format, and no name/dimension pair saves as an empty line. */
  predicate SavableNames(ix: Index) {
    forall l :: l in ix.names ==> IsPlainName(ix.names[l]) && (ix.names[l] != "" || ix.dim > 0)
  }

  /** The float printer yields a token for every value. */
  ghost predicate PrintsTokens(format: Format) {
    forall x: real :: IsToken(format(x))
  }

  /** `parse` reads each printed component of `v` back exactly. */
  predicate PrintsBack(v: Vector, format: Format, parse: Parser) {
    forall i :: 0 <= i < |v| ==> parse(format(v[i])) == Some(v[i])
  }

  /** Every stored vector prints back exactly. */
  predicate StoredPrintBack(ix: Index, format: Format, parse: Parser) {
    forall l :: l in ix.vectors ==> PrintsBack(ix.vectors[l], format, parse)
  }

  /** A printer and parser pair meeting both hypotheses on a vector with two distinct components. */
  lemma PrintingExample()
    ensures var format: Format := x => if x == 0.0 then "0" else "1";
      var parse: Parser := t => if t == "0" then Some(0.0) else if t == "1" then Some(1.0) else None;
      PrintsTokens(format) && PrintsBack([0.0, 1.0], format, parse)
  {
    var format: Format := x => if x == 0.0 then "0" else "1";
    forall x: real ensures IsToken(format(x)) {
      assert format(x) == "0" || format(x) == "1";
    }
  }

  /** A saved entry's line body has no newline in it. */
  lemma {:induction false} EntryBodyNoNewline(ix: Index, k: Label, format: Format)
    requires k in ix.names && k in ix.vectors
    requires '\n' !in ix.names[k]
    requires PrintsTokens(format)
    ensures '\n' !in EntryBody(ix, k, format)
  {
    var toks := Tokens(ix.vectors[k], format);
    TokensAreTokens(ix.vectors[k], format);
    LineBodyNoNewline(ix.names[k], toks);
  }

  /** Every printed component is a token when the printer only produces tokens. */
  lemma {:induction false} TokensAreTokens(v: Vector, format: Format)
    requires PrintsTokens(format)
    ensures forall i :: 0 <= i < |v| ==> IsToken(Tokens(v, format)[i])
  {
    var toks := Tokens(v, format);
    forall i | 0 <= i < |toks| ensures IsToken(toks[i]) {
      var x := v[i];
      assert toks[i] == format(x);
      assert IsToken(format(x));
    }
  }

  /** Dropping the first k elements leaves element k followed by the rest. */
  lemma {:induction false} DropCons<T>(s: seq<T>, k: nat)
    requires k < |s|
    ensures s[k..] == [s[k]] + s[k + 1..]
  {
  }

  /**
   * The file `saveToDisk` writes has one line per entry, in the order the
   * names are walked, each the entry's name followed by its value tokens.
   */
  lemma {:induction false} SaveWritesOneLinePerEntry(ix: Index, order: seq<Label>, format: Format, k: nat)
    requires InStore(ix, order) && SavableNames(ix) && PrintsTokens(format)
    requires k <= |order|
    ensures SplitLines(SerializeFrom(ix, order, k, format)) == SavedLines(ix, order, format)[k..]
    decreases |order| - k
  {
    var lines := SavedLines(ix, order, format);
    if k < |order| {
      var l := order[k];
      var body := EntryBody(ix, l, format);
      var tail := SerializeFrom(ix, order, k + 1, format);
      assert SerializeFrom(ix, order, k, format) == body + "\n" + tail;
      EntryBodyNoNewline(ix, l, format);
      SplitLinesCons(body, tail);
      SaveWritesOneLinePerEntry(ix, order, format, k + 1);
      assert lines[k] == body;
      DropCons(lines, k);
    } else {
      assert SerializeFrom(ix, order, k, format) == "";
      assert SplitLines("") == [];
    }
  }

  /** The saved line at position j is label order[j]'s name followed by exactly `dim` value tokens. */
  lemma {:induction false} SavedLineShape(ix: Index, order: seq<Label>, format: Format, j: nat)
    requires Valid(ix) && InStore(ix, order) && j < |order|
    ensures SavedLines(ix, order, format)[j] == LineBody(ix.names[order[j]], Tokens(ix.vectors[order[j]], format))
    ensures |Tokens(ix.vectors[order[j]], format)| == ix.dim
  {
  }

  /** Outcome of `loadFromDisk`: it finished, or `std::stof` threw midway, leaving what was added so far. */
  datatype LoadResult = Loaded(index: Index) | Aborted(index: Index)

  /** `std::stof` on each field in turn; None as soon as one throws. */
  function ParseValues(fields: seq<string>, parse: Parser): (r: Option<seq<real>>)
    ensures r.Some? ==> |r.value| == |fields|
    ensures r.Some? ==> forall i :: 0 <= i < |fields| ==> parse(fields[i]) == Some(r.value[i])
    ensures r.None? <==> exists i :: 0 <= i < |fields| && parse(fields[i]).None?
  {
    if fields == [] then Some([])
    else match parse(fields[0])
      case None => None
      case Some(x) =>
        match ParseValues(fields[1..], parse)
        case None => None
        case Some(xs) => Some([x] + xs)
  }

  /** The `dim`-long vector `std::vector<float> emb(dim)` holds after the values read are stored. */
  function Pad(values: seq<real>, dim: nat): (r: Vector)
    requires |values| <= dim
    ensures |r| == dim
    ensures forall i :: 0 <= i < |values| ==> r[i] == values[i]
    ensures forall i :: |values| <= i < dim ==> r[i] == 0.0
  {
    values + Zeros(dim - |values|)
  }

  /** The records of the non-empty lines, in file order. */
  function Records(lines: seq<string>, dim: nat): (r: seq<Record>)
    ensures |r| <= |lines|
    ensures forall j :: 0 <= j < |r| ==> |r[j].fields| <= dim
  {
    if lines == [] then []
    else
      (match ParseLine(lines[0], dim) case None => [] case Some(rec) => [rec])
      + Records(lines[1..], dim)
  }

  /**
   * The read loop of `loadFromDisk`: each non-empty line is parsed and added;
   * an unparsable value aborts the whole load with the entries added so far.
   */
  function LoadLines(acc: Index, lines: seq<string>, parse: Parser, sqrt: real -> real): (r: LoadResult)
    requires |acc.vectors| + |Records(lines, acc.dim)| <= Capacity
    ensures r.index.dim == acc.dim
    ensures Valid(acc) ==> Valid(r.index)
    decreases |lines|
  {
    if lines == [] then Loaded(acc)
    else match ParseLine(lines[0], acc.dim)
      case None => LoadLines(acc, lines[1..], parse, sqrt)
      case Some(rec) =>
        match ParseValues(rec.fields, parse)
        case None => Aborted(acc)
        case Some(values) =>
          LoadLines(Add(acc, rec.name, Pad(values, acc.dim), sqrt), lines[1..], parse, sqrt)
  }

  /**
   * `loadFromDisk`: a file that cannot be opened (None) leaves the index as it
   * was; otherwise the index is cleared, the counter restarts at 0, and the
   * file's lines are loaded.
   */
  function LoadFromDisk(ix: Index, file: Option<string>, parse: Parser, sqrt: real -> real): (r: LoadResult)
    requires file.Some? ==> |Records(SplitLines(file.value), ix.dim)| <= Capacity
    ensures file.None? ==> r == Loaded(ix)
    ensures file.Some? ==> Valid(r.index) && r.index.dim == ix.dim
  {
    match file
    case None => Loaded(ix)
    case Some(text) => LoadLines(New(ix.dim), SplitLines(text), parse, sqrt)
  }

  /** Loading discards the previous contents: only the dimension of the old index matters. */
  lemma {:induction false} LoadReplacesState(ix1: Index, ix2: Index, text: string, parse: Parser, sqrt: real -> real)
    requires ix1.dim == ix2.dim
    requires |Records(SplitLines(text), ix1.dim)| <= Capacity
    ensures LoadFromDisk(ix1, Some(text), parse, sqrt) == LoadFromDisk(ix2, Some(text), parse, sqrt)
  {
  }

  /** Every record's fields parse. */
  predicate AllParse(recs: seq<Record>, parse: Parser) {
    forall j :: 0 <= j < |recs| ==> ParseValues(recs[j].fields, parse).Some?
  }

  /** The entry a parsed record becomes: its values padded with zeros to `dim`. */
  function RecordVector(rec: Record, dim: nat, parse: Parser): Vector
    requires |rec.fields| <= dim
    requires ParseValues(rec.fields, parse).Some?
  {
    Pad(ParseValues(rec.fields, parse).value, dim)
  }

  lemma {:induction false} LoadLinesSkip(acc: Index, lines: seq<string>, parse: Parser, sqrt: real -> real)
    requires lines != [] && |acc.vectors| + |Records(lines, acc.dim)| <= Capacity
    requires ParseLine(lines[0], acc.dim).None?
    ensures Records(lines, acc.dim) == Records(lines[1..], acc.dim)
    ensures LoadLines(acc, lines, parse, sqrt) == LoadLines(acc, lines[1..], parse, sqrt)
  {
  }

  lemma {:induction false} LoadLinesAbort(acc: Index, lines: seq<string>, parse: Parser, sqrt: real -> real)
    requires lines != [] && |acc.vectors| + |Records(lines, acc.dim)| <= Capacity
    requires ParseLine(lines[0], acc.dim).Some?
    requires ParseValues(ParseLine(lines[0], acc.dim).value.fields, parse).None?
    ensures LoadLines(acc, lines, parse, sqrt) == Aborted(acc)
    ensures Records(lines, acc.dim) == [ParseLine(lines[0], acc.dim).value] + Records(lines[1..], acc.dim)
  {
  }

  lemma {:induction false} LoadLinesStep(acc: Index, lines: seq<string>, parse: Parser, sqrt: real -> real)
    requires lines != [] && |acc.vectors| + |Records(lines, acc.dim)| <= Capacity
    requires ParseLine(lines[0], acc.dim).Some?
    requires ParseValues(ParseLine(lines[0], acc.dim).value.fields, parse).Some?
    ensures var rec := ParseLine(lines[0], acc.dim).value;
      && Records(lines, acc.dim) == [rec] + Records(lines[1..], acc.dim)
      && |acc.vectors| < Capacity
    ensures var rec := ParseLine(lines[0], acc.dim).value;
      var acc' := Add(acc, rec.name, RecordVector(rec, acc.dim, parse), sqrt);
      && |acc'.vectors| + |Records(lines[1..], acc.dim)| <= Capacity
      && LoadLines(acc, lines, parse, sqrt) == LoadLines(acc', lines[1..], parse, sqrt)
  {
  }

  /** A run of records all parses when its first record and the rest do. */
  lemma {:induction false} AllParseCons(rec: Record, rest: seq<Record>, parse: Parser)
    ensures AllParse([rec] + rest, parse) <==> ParseValues(rec.fields, parse).Some? && AllParse(rest, parse)
  {
    var recs := [rec] + rest;
    assert recs[0] == rec;
    assert forall j :: 0 <= j < |rest| ==> recs[j + 1] == rest[j];
    if ParseValues(rec.fields, parse).Some? && AllParse(rest, parse) {
      assert forall j :: 0 < j < |recs| ==> recs[j] == rest[j - 1];
    }
  }

  /** The load loop ends normally exactly when every non-empty line's values parse. */
  lemma {:induction false} LoadLinesOutcome(acc: Index, lines: seq<string>, parse: Parser, sqrt: real -> real)
    requires |acc.vectors| + |Records(lines, acc.dim)| <= Capacity
    ensures LoadLines(acc, lines, parse, sqrt).Loaded? <==> AllParse(Records(lines, acc.dim), parse)
    decreases |lines|
  {
    if lines != [] {
      var rest := Records(lines[1..], acc.dim);
      match ParseLine(lines[0], acc.dim)
      case None =>
        LoadLinesSkip(acc, lines, parse, sqrt);
        LoadLinesOutcome(acc, lines[1..], parse, sqrt);
      case Some(rec) =>
        AllParseCons(rec, rest, parse);
        if ParseValues(rec.fields, parse).None? {
          LoadLinesAbort(acc, lines, parse, sqrt);
        } else {
          LoadLinesStep(acc, lines, parse, sqrt);
          var acc' := Add(acc, rec.name, RecordVector(rec, acc.dim, parse), sqrt);
          LoadLinesOutcome(acc', lines[1..], parse, sqrt);
        }
    }
  }

  /** The load loop never alters an entry that was already in a valid index. */
  lemma {:induction false} LoadLinesKeeps(acc: Index, lines: seq<string>, parse: Parser, sqrt: real -> real, l: Label)
    requires Valid(acc) && |acc.vectors| + |Records(lines, acc.dim)| <= Capacity
    requires l in acc.names
    ensures var r := LoadLines(acc, lines, parse, sqrt).index;
      l in r.names && r.names[l] == acc.names[l] && r.vectors[l] == acc.vectors[l]
    decreases |lines|
  {
    if lines != [] {
      match ParseLine(lines[0], acc.dim)
      case None =>
        LoadLinesSkip(acc, lines, parse, sqrt);
        LoadLinesKeeps(acc, lines[1..], parse, sqrt, l);
      case Some(rec) =>
        if ParseValues(rec.fields, parse).None? {
          LoadLinesAbort(acc, lines, parse, sqrt);
        } else {
          LoadLinesStep(acc, lines, parse, sqrt);
          var acc' := Add(acc, rec.name, RecordVector(rec, acc.dim, parse), sqrt);
          LoadLinesKeeps(acc', lines[1..], parse, sqrt, l);
        }
    }
  }

  /** A load loop that ends normally has advanced the counter once per non-empty line. */
  lemma {:induction false} LoadLinesCount(acc: Index, lines: seq<string>, parse: Parser, sqrt: real -> real)
    requires |acc.vectors| + |Records(lines, acc.dim)| <= Capacity
    ensures LoadLines(acc, lines, parse, sqrt).Loaded? ==>
      LoadLines(acc, lines, parse, sqrt).index.nextId == acc.nextId + |Records(lines, acc.dim)|
    decreases |lines|
  {
    if lines != [] {
      match ParseLine(lines[0], acc.dim)
      case None =>
        LoadLinesSkip(acc, lines, parse, sqrt);
        LoadLinesCount(acc, lines[1..], parse, sqrt);
      case Some(rec) =>
        if ParseValues(rec.fields, parse).None? {
          LoadLinesAbort(acc, lines, parse, sqrt);
        } else {
          LoadLinesStep(acc, lines, parse, sqrt);
          var acc' := Add(acc, rec.name, RecordVector(rec, acc.dim, parse), sqrt);
          LoadLinesCount(acc', lines[1..], parse, sqrt);
        }
    }
  }

  /** The first non-empty line, when its values parse, is stored under the counter's current value. */
  lemma {:induction false} LoadLinesHead(acc: Index, lines: seq<string>, parse: Parser, sqrt: real -> real)
    requires Valid(acc) && |acc.vectors| + |Records(lines, acc.dim)| <= Capacity
    requires lines != [] && ParseLine(lines[0], acc.dim).Some?
    requires ParseValues(ParseLine(lines[0], acc.dim).value.fields, parse).Some?
    ensures var r := LoadLines(acc, lines, parse, sqrt).index;
      var rec := ParseLine(lines[0], acc.dim).value;
      && acc.nextId in r.names
      && r.names[acc.nextId] == rec.name
      && r.vectors[acc.nextId] == Normalize(RecordVector(rec, acc.dim, parse), sqrt)
  {
    var rec := ParseLine(lines[0], acc.dim).value;
    LoadLinesStep(acc, lines, parse, sqrt);
    var acc' := Add(acc, rec.name, RecordVector(rec, acc.dim, parse), sqrt);
    LoadLinesKeeps(acc', lines[1..], parse, sqrt, acc.nextId);
  }

  /**
   * What loading the first k saved lines rebuilds: label j holds the name of
   * label order[j] of `ix` and its vector normalised again.
   */
  function Reordered(ix: Index, order: seq<Label>, k: nat, sqrt: real -> real): Index
    requires InStore(ix, order) && k <= |order|
  {
    Index(ix.dim, k,
      map j: Label | j < k :: ix.names[order[j]],
      map j: Label | j < k :: Normalize(ix.vectors[order[j]], sqrt))
  }

  /** The first k reloaded entries form a valid index of k entries. */
  lemma {:induction false} ReorderedValid(ix: Index, order: seq<Label>, k: nat, sqrt: real -> real)
    requires Valid(ix) && InStore(ix, order) && k <= |order|
    ensures Valid(Reordered(ix, order, k, sqrt))
    ensures |Reordered(ix, order, k, sqrt).vectors| == k
  {
    var p := Reordered(ix, order, k, sqrt);
    forall j: Label | j < k ensures |p.vectors[j]| == ix.dim {
      assert order[j] in ix.vectors;
    }
    ValidSize(p);
  }

  lemma {:induction false} ReorderedNamesStep(ix: Index, order: seq<Label>, k: nat, sqrt: real -> real)
    requires InStore(ix, order) && k < |order|
    ensures Reordered(ix, order, k, sqrt).names[k := ix.names[order[k]]] == Reordered(ix, order, k + 1, sqrt).names
  {
  }

  lemma {:induction false} ReorderedVectorsStep(ix: Index, order: seq<Label>, k: nat, sqrt: real -> real)
    requires InStore(ix, order) && k < |order|
    ensures Reordered(ix, order, k, sqrt).vectors[k := Normalize(ix.vectors[order[k]], sqrt)]
         == Reordered(ix, order, k + 1, sqrt).vectors
  {
  }

  /** Adding entry order[k] of a valid index to the first k reloaded entries gives the first k+1. */
  lemma {:induction false} AddExtendsReordered(ix: Index, order: seq<Label>, k: nat, sqrt: real -> real)
    requires Valid(ix) && InStore(ix, order) && k < |order| && k < Capacity
    ensures |Reordered(ix, order, k, sqrt).vectors| == k
    ensures Add(Reordered(ix, order, k, sqrt), ix.names[order[k]], ix.vectors[order[k]], sqrt)
         == Reordered(ix, order, k + 1, sqrt)
  {
    ReorderedValid(ix, order, k, sqrt);
    ReorderedNamesStep(ix, order, k, sqrt);
    ReorderedVectorsStep(ix, order, k, sqrt);
  }

  /** The printed tokens of a vector that prints back parse to the vector itself. */
  lemma {:induction false} ParseTokens(v: Vector, format: Format, parse: Parser)
    requires PrintsBack(v, format, parse)
    ensures ParseValues(Tokens(v, format), parse) == Some(v)
  {
    var fields := Tokens(v, format);
    if v != [] {
      var x := v[0];
      assert fields[0] == format(x);
      assert parse(format(x)) == Some(x);
      assert fields[1..] == Tokens(v[1..], format);
      assert PrintsBack(v[1..], format, parse) by {
        forall i | 0 <= i < |v[1..]| ensures parse(format(v[1..][i])) == Some(v[1..][i]) {
          assert v[1..][i] == v[i + 1];
        }
      }
      ParseTokens(v[1..], format, parse);
      assert ParseValues(fields, parse) == Some([v[0]] + v[1..]);
      assert [v[0]] + v[1..] == v;
    }
  }

  /** Padding a vector that already has `dim` components changes nothing. */
  lemma {:induction false} PadFull(v: Vector, dim: nat)
    requires |v| == dim
    ensures Pad(v, dim) == v
  {
  }

  /** The saved line at position j reads back as label order[j]'s name and vector. */
  lemma {:induction false} SavedLineParses(ix: Index, order: seq<Label>, j: nat, format: Format, parse: Parser)
    requires Valid(ix) && InStore(ix, order) && SavableNames(ix)
    requires PrintsTokens(format) && StoredPrintBack(ix, format, parse)
    requires j < |order|
    ensures ParseLine(SavedLines(ix, order, format)[j], ix.dim).Some?
    ensures var rec := ParseLine(SavedLines(ix, order, format)[j], ix.dim).value;
      && rec.name == ix.names[order[j]]
      && |rec.fields| <= ix.dim
      && ParseValues(rec.fields, parse).Some?
      && RecordVector(rec, ix.dim, parse) == ix.vectors[order[j]]
  {
    var l := order[j];
    var vec := ix.vectors[l];
    var toks := Tokens(vec, format);
    assert SavedLines(ix, order, format)[j] == LineBody(ix.names[l], toks);
    TokensAreTokens(vec, format);
    LineRoundTrip(ix.names[l], toks, ix.dim);
    ParseTokens(vec, format, parse);
    PadFull(vec, ix.dim);
  }

  /** Loading saved line k on top of the first k reloaded entries gives the first k+1. */
  lemma {:induction false} LoadSavedLine(ix: Index, order: seq<Label>, k: nat, format: Format, parse: Parser, sqrt: real -> real)
    requires Valid(ix) && InStore(ix, order) && SavableNames(ix)
    requires PrintsTokens(format) && StoredPrintBack(ix, format, parse)
    requires |order| <= Capacity
    requires k < |order|
    ensures |Reordered(ix, order, k, sqrt).vectors| == k
    ensures |Reordered(ix, order, k + 1, sqrt).vectors| == k + 1
    ensures LoadLines(Reordered(ix, order, k, sqrt), SavedLines(ix, order, format)[k..], parse, sqrt)
         == LoadLines(Reordered(ix, order, k + 1, sqrt), SavedLines(ix, order, format)[k + 1..], parse, sqrt)
  {
    ReorderedValid(ix, order, k, sqrt);
    ReorderedValid(ix, order, k + 1, sqrt);
    var lines := SavedLines(ix, order, format)[k..];
    assert lines[0] == SavedLines(ix, order, format)[k];
    assert lines[1..] == SavedLines(ix, order, format)[k + 1..];
    SavedLineParses(ix, order, k, format, parse);
    LoadLinesStep(Reordered(ix, order, k, sqrt), lines, parse, sqrt);
    AddExtendsReordered(ix, order, k, sqrt);
  }

  lemma {:induction false} LoadSavedLinesFrom(ix: Index, order: seq<Label>, k: nat, format: Format, parse: Parser, sqrt: real -> real)
    requires Valid(ix) && InStore(ix, order) && SavableNames(ix)
    requires PrintsTokens(format) && StoredPrintBack(ix, format, parse)
    requires |order| <= Capacity
    requires k <= |order|
    ensures |Reordered(ix, order, k, sqrt).vectors| == k
    ensures LoadLines(Reordered(ix, order, k, sqrt), SavedLines(ix, order, format)[k..], parse, sqrt)
         == Loaded(Reordered(ix, order, |order|, sqrt))
    decreases |order| - k
  {
    if k == |order| {
      ReorderedValid(ix, order, k, sqrt);
      assert SavedLines(ix, order, format)[k..] == [];
    } else {
      LoadSavedLine(ix, order, k, format, parse, sqrt);
      LoadSavedLinesFrom(ix, order, k + 1, format, parse, sqrt);
    }
  }

  /** Loading the saved file replays every saved line in the order they were written. */
  lemma {:induction false} SaveLoadGivesReordered(ix: Index, order: seq<Label>, any: Index, format: Format, parse: Parser, sqrt: real -> real)
    requires Valid(ix) && IsVisitOrder(ix, order) && SavableNames(ix)
    requires PrintsTokens(format) && StoredPrintBack(ix, format, parse)
    requires ix.nextId <= Capacity
    requires any.dim == ix.dim
    ensures InStore(ix, order) && |order| == ix.nextId
    ensures |Records(SplitLines(Serialize(ix, order, format)), ix.dim)| <= Capacity
    ensures LoadFromDisk(any, Some(Serialize(ix, order, format)), parse, sqrt)
         == Loaded(Reordered(ix, order, |order|, sqrt))
  {
    VisitOrderOfValid(ix, order);
    SaveWritesOneLinePerEntry(ix, order, format, 0);
    assert SavedLines(ix, order, format)[0..] == SavedLines(ix, order, format);
    LoadSavedLinesFrom(ix, order, 0, format, parse, sqrt);
    assert Reordered(ix, order, 0, sqrt) == New(ix.dim);
  }

  /**
   * Index-level round trip: loading the file saved from a valid index whose
   * names are plain, with stored values `parse` reads back, gives the same
   * counter, and label j holds the name and the re-normalised vector (`add`
   * normalises again on load) of the j-th label the save walked.
   */
  lemma {:induction false} SaveLoadRoundTrip(ix: Index, order: seq<Label>, any: Index, format: Format, parse: Parser, sqrt: real -> real)
    requires Valid(ix) && IsVisitOrder(ix, order) && SavableNames(ix)
    requires PrintsTokens(format) && StoredPrintBack(ix, format, parse)
    requires ix.nextId <= Capacity
    requires any.dim == ix.dim
    ensures InStore(ix, order) && |order| == ix.nextId
    ensures |Records(SplitLines(Serialize(ix, order, format)), ix.dim)| <= Capacity
    ensures var r := LoadFromDisk(any, Some(Serialize(ix, order, format)), parse, sqrt);
      && r.Loaded?
      && r.index.nextId == ix.nextId
      && forall j :: 0 <= j < ix.nextId ==>
           && j in r.index.names && r.index.names[j] == ix.names[order[j]]
           && j in r.index.vectors && r.index.vectors[j] == Normalize(ix.vectors[order[j]], sqrt)
  {
    SaveLoadGivesReordered(ix, order, any, format, parse, sqrt);
  }

  /**
   * When the walk happens to visit the labels in increasing order, the reload
   * keeps every name under its own label and every vector re-normalised.
   */
  lemma {:induction false} AscendingRoundTrip(ix: Index, any: Index, format: Format, parse: Parser, sqrt: real -> real)
    requires Valid(ix) && SavableNames(ix)
    requires PrintsTokens(format) && StoredPrintBack(ix, format, parse)
    requires ix.nextId <= Capacity
    requires any.dim == ix.dim
    ensures IsVisitOrder(ix, Ascending(ix.nextId))
    ensures InStore(ix, Ascending(ix.nextId))
    ensures |Records(SplitLines(Serialize(ix, Ascending(ix.nextId), format)), ix.dim)| <= Capacity
    ensures var r := LoadFromDisk(any, Some(Serialize(ix, Ascending(ix.nextId), format)), parse, sqrt);
      && r.Loaded?
      && r.index.nextId == ix.nextId
      && r.index.names == ix.names
      && r.index.vectors.Keys == ix.vectors.Keys
      && forall l :: l in ix.vectors ==> r.index.vectors[l] == Normalize(ix.vectors[l], sqrt)
  {
    var order := Ascending(ix.nextId);
    AscendingIsVisitOrder(ix);
    SaveLoadGivesReordered(ix, order, any, format, parse, sqrt);
    ReorderedIsAll(ix, sqrt);
  }

  /** Reloading in increasing order rebuilds the same names and keys, every vector normalised. */
  lemma {:induction false} ReorderedIsAll(ix: Index, sqrt: real -> real)
    requires Valid(ix)
    ensures InStore(ix, Ascending(ix.nextId))
    ensures var p := Reordered(ix, Ascending(ix.nextId), ix.nextId, sqrt);
      && p.nextId == ix.nextId
      && p.names == ix.names
      && p.vectors.Keys == ix.vectors.Keys
      && forall l :: l in ix.vectors ==> p.vectors[l] == Normalize(ix.vectors[l], sqrt)
  {
    var order := Ascending(ix.nextId);
    assert InStore(ix, order) by {
      forall j | 0 <= j < |order| ensures order[j] in ix.names && order[j] in ix.vectors {
        assert order[j] == j;
      }
    }
    var p := Reordered(ix, order, ix.nextId, sqrt);
    assert p.names.Keys == ix.names.Keys;
    assert p.vectors.Keys == ix.vectors.Keys;
    forall l | l in ix.names ensures p.names[l] == ix.names[l] && p.vectors[l] == Normalize(ix.vectors[l], sqrt) {
      assert order[l] == l;
    }
  }
}
