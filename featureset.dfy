/**
  The feature-id table of the relation-extraction pipeline
  (JariSandbox/ComplexPPI/Source/Core/FeatureSet.py): feature names are
  interned to consecutive integer ids, the table is printed as rows of
  `name:id` pairs, and it is saved as and read back from `name: id` lines.
*/
module FeatureSets {
  import opened Wrappers
  import opened Strings

  /** The name-to-id dictionary `featureIds`. */
  type Ids = map<string, int>

  /** The default of the constructor's `firstNumber`. */
  const DefaultFirstNumber: int := 1
  /** The default of `toStrings`'s `rowLength`. */
  const DefaultRowLength: int := 80

  // ------------------------------------------------------------ getId

  /**
    The ids a table gets from `getId` alone: each lies in
    `[first, first + |m|)`, no two names share one, and every number of
    that range is in use.
  */
  predicate Dense(m: Ids, first: int) {
    (forall k :: k in m ==> first <= m[k] < first + |m|)
    && (forall k1, k2 :: k1 in m && k2 in m && k1 != k2 ==> m[k1] != m[k2])
    && (forall v :: first <= v < first + |m| ==> v in m.Values)
  }

  /**
    `getId(name)` on the ids `m` of a table counting from `first`: the ids
    afterwards and the id returned. A known name keeps its id; a new one
    is added with `first` plus the number of names already known.
  */
  function Intern(m: Ids, first: int, name: string): (r: (Ids, int))
    ensures r.0.Keys == m.Keys + {name}
    ensures forall k :: k in m ==> r.0[k] == m[k]
    ensures name in r.0 && r.1 == r.0[name]
    ensures name !in m ==> r.1 == first + |m|
  {
    if name in m then (m, m[name]) else (m[name := first + |m|], first + |m|)
  }

  /** Asking again for the same name returns the same id and changes nothing. */
  lemma InternIdempotent(m: Ids, first: int, name: string)
    ensures var r := Intern(m, first, name);
      Intern(r.0, first, name) == r
  {
  }

  /** `getId` adds at most one entry: exactly one when, and only when, the name is new. */
  lemma InternGrowth(m: Ids, first: int, name: string)
    ensures |Intern(m, first, name).0| == if name in m then |m| else |m| + 1
  {
  }

  /** `getId` keeps the ids dense, and a new name gets an id no other name has. */
  lemma InternKeepsDense(m: Ids, first: int, name: string)
    requires Dense(m, first)
    ensures Dense(Intern(m, first, name).0, first)
    ensures name !in m ==> Intern(m, first, name).1 !in m.Values
  {
    if name !in m {
      var n := m[name := first + |m|];
      assert |n| == |m| + 1;
      forall v | first <= v < first + |n| ensures v in n.Values {
        if v < first + |m| {
          assert v in m.Values;
          var k :| k in m && m[k] == v;
          assert n[k] == v;
        } else {
          assert n[name] == v;
        }
      }
    }
  }

  // ------------------------------------------------------------ entries

  /** The entries `(key, id)` of a table, keys in the ascending order `keys.sort()` leaves them. */
  function Entries(m: Ids): (es: seq<(string, int)>)
  {
    var keys := SortedKeys(m.Keys);
    seq(|keys|, i requires 0 <= i < |keys| => (keys[i], m[keys[i]]))
  }

  /** Every entry of the table appears, nothing else does, and the keys strictly ascend. */
  lemma EntriesInKeyOrder(m: Ids)
    ensures |Entries(m)| == |m|
    ensures forall k :: k in m ==> exists i :: 0 <= i < |m| && Entries(m)[i] == (k, m[k])
    ensures forall i :: 0 <= i < |m| ==> Entries(m)[i].0 in m && Entries(m)[i].1 == m[Entries(m)[i].0]
    ensures forall i, j :: 0 <= i < j < |m| ==> Below(Entries(m)[i].0, Entries(m)[j].0)
  {
    var keys := SortedKeys(m.Keys);
    assert |m.Keys| == |m|;
    forall k | k in m ensures exists i :: 0 <= i < |m| && Entries(m)[i] == (k, m[k]) {
      var i :| 0 <= i < |keys| && keys[i] == k;
      assert Entries(m)[i] == (k, m[k]);
    }
  }

  // ------------------------------------------------------------ toStrings

  /** The text of one entry in `toStrings`: `str(key) + ":" + str(id)`. */
  function Pair(key: string, id: int): (p: string)
    ensures p != []
  {
    key + ":" + IntToString(id)
  }

  /** The pairs of all entries, in key order. */
  function Pairs(m: Ids): (ps: seq<string>)
    ensures |ps| == |Entries(m)|
  {
    PairsOf(Entries(m))
  }

  function PairsOf(es: seq<(string, int)>): (ps: seq<string>)
    ensures |ps| == |es|
    ensures forall i :: 0 <= i < |ps| ==> ps[i] != []
  {
    seq(|es|, i requires 0 <= i < |es| => Pair(es[i].0, es[i].1))
  }

  /** `sum(len(pair) + 1)` over a row: the amount it adds to `currLen`. */
  function Cost(row: seq<string>): (c: nat)
    ensures row != [] ==> c > 0
  {
    if row == [] then 0 else Cost(row[..|row| - 1]) + |row[|row| - 1]| + 1
  }

  /**
    The rows of pairs `toStrings` builds, with the final `currLen`. Each
    pair adds its length plus one to `currLen`; when that passes
    `rowLength` the pair opens a new row and `currLen` drops to 0, so the
    pair that opened the row is not counted against it.
  */
  function Pack(pairs: seq<string>, rowLength: int): (r: (seq<seq<string>>, int))
    ensures |r.0| >= 1
    decreases |pairs|
  {
    if pairs == [] then ([[]], 0)
    else
      var prev := Pack(pairs[..|pairs| - 1], rowLength);
      var p := pairs[|pairs| - 1];
      var len := prev.1 + |p| + 1;
      if len > rowLength then (prev.0 + [[p]], 0)
      else (prev.0[..|prev.0| - 1] + [prev.0[|prev.0| - 1] + [p]], len)
  }

  /** The last row ends with the last pair; it is empty only when there are no pairs. */
  lemma PackLast(pairs: seq<string>, rowLength: int)
    ensures var rows := Pack(pairs, rowLength).0;
      (rows[|rows| - 1] == [] <==> pairs == [])
      && (pairs != [] ==> rows[|rows| - 1][|rows[|rows| - 1]| - 1] == pairs[|pairs| - 1])
  {
  }

  /** The rows, one after the other. */
  function Flatten(rows: seq<seq<string>>): seq<string> {
    if rows == [] then [] else Flatten(rows[..|rows| - 1]) + rows[|rows| - 1]
  }

  /** What a row counts against `rowLength`: all of it, or, for a row a break opened, what follows its opening pair. */
  function Counted(row: seq<string>, afterBreak: bool): nat {
    if afterBreak && row != [] then Cost(row[1..]) else Cost(row)
  }

  /** The strings `toStrings` returns: each row's pairs joined by `;`. */
  function RowStrings(rows: seq<seq<string>>): (s: seq<string>)
    ensures |s| == |rows|
  {
    seq(|rows|, j requires 0 <= j < |rows| => Join(rows[j], ';'))
  }

  lemma {:induction false} CostAppend(row: seq<string>, p: string)
    ensures Cost(row + [p]) == Cost(row) + |p| + 1
  {
    assert (row + [p])[..|row|] == row;
  }

  lemma {:induction false} CostTail(row: seq<string>)
    requires row != []
    ensures Cost(row) == |row[0]| + 1 + Cost(row[1..])
  {
    if |row| > 1 {
      CostTail(row[..|row| - 1]);
      assert row[..|row| - 1][1..] == row[1..][..|row| - 2];
    }
  }

  lemma {:induction false} FlattenAppend(rows: seq<seq<string>>, row: seq<string>)
    ensures Flatten(rows + [row]) == Flatten(rows) + row
  {
    assert (rows + [row])[..|rows|] == rows;
  }

  /** No pair is lost, duplicated or moved: the rows hold the pairs in order. */
  lemma {:induction false} PackContents(pairs: seq<string>, rowLength: int)
    ensures Flatten(Pack(pairs, rowLength).0) == pairs
    decreases |pairs|
  {
    if pairs == [] {
      assert Flatten([[]]) == Flatten([]) + [];
    } else {
      var init := pairs[..|pairs| - 1];
      var p := pairs[|pairs| - 1];
      var rows := Pack(init, rowLength).0;
      PackContents(init, rowLength);
      assert pairs == init + [p];
      if Pack(init, rowLength).1 + |p| + 1 > rowLength {
        FlattenAppend(rows, [p]);
      } else {
        var front := rows[..|rows| - 1];
        var last := rows[|rows| - 1];
        assert rows == front + [last];
        FlattenAppend(front, last);
        FlattenAppend(front, last + [p]);
      }
    }
  }

  /**
    Row `j` keeps the break rule: what it counts fits in `rowLength` (or
    is nothing), and a row after the first is opened by a pair for which
    the previous row had no room.
  */
  predicate RowOk(rows: seq<seq<string>>, j: nat, rowLength: int)
    requires j < |rows|
  {
    (Counted(rows[j], j > 0) == 0 || Counted(rows[j], j > 0) <= rowLength)
    && (j > 0 ==> rows[j] != [] && Counted(rows[j - 1], j > 1) + |rows[j][0]| + 1 > rowLength)
  }

  /** Every row keeps the break rule, and `currLen` is what the last row counts. */
  predicate PackShape(rows: seq<seq<string>>, currLen: int, rowLength: int) {
    |rows| >= 1
    && (forall j :: 0 <= j < |rows| ==> RowOk(rows, j, rowLength))
    && currLen == Counted(rows[|rows| - 1], |rows| > 1)
  }

  /** A pair with no room in the last row opens a new one. */
  lemma BreakStep(rows: seq<seq<string>>, len: int, rowLength: int, p: string)
    requires PackShape(rows, len, rowLength) && len + |p| + 1 > rowLength
    ensures PackShape(rows + [[p]], 0, rowLength)
  {
    var r := rows + [[p]];
    var n := |rows|;
    forall j | 0 <= j < |r| ensures RowOk(r, j, rowLength) {
      if j < n {
        assert r[j] == rows[j] && RowOk(rows, j, rowLength);
        if j > 0 { assert r[j - 1] == rows[j - 1]; }
      } else {
        assert r[j] == [p] && r[j - 1] == rows[n - 1];
        assert [p][1..] == [];
      }
    }
  }

  /** A pair with room in the last row joins it. */
  lemma AppendStep(rows: seq<seq<string>>, len: int, rowLength: int, p: string)
    requires PackShape(rows, len, rowLength) && len + |p| + 1 <= rowLength
    ensures PackShape(rows[..|rows| - 1] + [rows[|rows| - 1] + [p]], len + |p| + 1, rowLength)
  {
    var n := |rows|;
    var last := rows[n - 1];
    var r := rows[..n - 1] + [last + [p]];
    assert RowOk(rows, n - 1, rowLength);
    assert Counted(last + [p], n > 1) == len + |p| + 1 by {
      if n > 1 {
        assert (last + [p])[1..] == last[1..] + [p];
        CostAppend(last[1..], p);
      } else {
        CostAppend(last, p);
      }
    }
    forall j | 0 <= j < n ensures RowOk(r, j, rowLength) {
      if j < n - 1 {
        assert r[j] == rows[j] && RowOk(rows, j, rowLength);
      } else {
        assert r[j] == last + [p];
      }
      if j > 0 {
        assert r[j - 1] == rows[j - 1];
        assert RowOk(rows, j, rowLength);
      }
    }
  }

  /** `toStrings` keeps the break rule on every row. */
  lemma {:induction false} PackBreaks(pairs: seq<string>, rowLength: int)
    ensures PackShape(Pack(pairs, rowLength).0, Pack(pairs, rowLength).1, rowLength)
    decreases |pairs|
  {
    if pairs != [] {
      var init := pairs[..|pairs| - 1];
      var p := pairs[|pairs| - 1];
      PackBreaks(init, rowLength);
      var prev := Pack(init, rowLength);
      if prev.1 + |p| + 1 > rowLength {
        BreakStep(prev.0, prev.1, rowLength, p);
      } else {
        AppendStep(prev.0, prev.1, rowLength, p);
      }
    }
  }

  /** An empty table prints as one empty row. */
  lemma PackEmpty(rowLength: int)
    ensures RowStrings(Pack([], rowLength).0) == [""]
  {
  }

  lemma {:induction false} JoinSnoc(row: seq<string>, p: string)
    requires row != []
    ensures Join(row + [p], ';') == Join(row, ';') + ";" + p
  {
    assert (row + [p])[..|row|] == row;
  }

  lemma {:induction false} JoinLength(row: seq<string>)
    requires row != []
    ensures |Join(row, ';')| + 1 == Cost(row)
  {
    if |row| > 1 {
      JoinLength(row[..|row| - 1]);
    }
  }

  /** A new row of `toStrings`, as `strings.append("")`. */
  lemma OpenRow(rows: seq<seq<string>>)
    ensures RowStrings(rows + [[]]) == RowStrings(rows) + [""]
  {
    assert forall j :: 0 <= j < |rows| ==> (rows + [[]])[j] == rows[j];
  }

  /**
    A pair added to the last row, as `toStrings` does it: `;` first unless
    the row's string is still empty, which it is just when the row holds no
    pair yet.
  */
  lemma AddToRow(rows: seq<seq<string>>, p: string)
    requires rows != []
    requires rows[|rows| - 1] == [] || rows[|rows| - 1][|rows[|rows| - 1]| - 1] != []
    ensures var last := rows[|rows| - 1];
      var row := RowStrings(rows)[|rows| - 1];
      (row == [] <==> last == [])
      && RowStrings(rows[..|rows| - 1] + [last + [p]])
        == RowStrings(rows)[..|rows| - 1] + [(if row == [] then row else row + ";") + p]
  {
    var n := |rows|;
    var last := rows[n - 1];
    var r := rows[..n - 1] + [last + [p]];
    assert RowStrings(rows)[n - 1] == Join(last, ';');
    var row := Join(last, ';');
    var added := (if row == [] then row else row + ";") + p;
    if last != [] {
      if |last| > 1 {
        assert row == Join(last[..|last| - 1], ';') + [';'] + last[|last| - 1];
      } else {
        assert row == last[0];
      }
      assert row != [];
      JoinSnoc(last, p);
      assert Join(last + [p], ';') == added;
    } else {
      assert last + [p] == [p];
      assert Join(last + [p], ';') == added;
    }
    assert forall j :: 0 <= j < n - 1 ==> r[j] == rows[j];
    assert RowStrings(r)[n - 1] == added;
  }

  lemma TakeSnoc<T>(s: seq<T>, i: nat)
    requires i < |s|
    ensures s[..i + 1] == s[..i] + [s[i]]
    ensures s[..i + 1][..i] == s[..i] && s[..i + 1][i] == s[i]
    ensures i > 0 ==> s[..i][i - 1] == s[i - 1]
  {
  }

  /**
    One turn of the loop of `toStrings`: from the strings built from the
    pairs before `p`, `grown` is them after the possible `append("")`
    and `row` the last of those with the `;` that precedes `p`.
  */
  lemma ToStringsStep(ps: seq<string>, p: string, ps1: seq<string>, rowLength: int,
                      len0: int, len1: int, grown: seq<string>, row: string)
    requires ps1 == ps + [p]
    requires ps == [] || ps[|ps| - 1] != []
    requires len0 == Pack(ps, rowLength).1
    requires len1 == if len0 + |p| + 1 > rowLength then 0 else len0 + |p| + 1
    requires grown == if len0 + |p| + 1 > rowLength
      then RowStrings(Pack(ps, rowLength).0) + [""] else RowStrings(Pack(ps, rowLength).0)
    requires row == if grown[|grown| - 1] != "" then grown[|grown| - 1] + ";" else grown[|grown| - 1]
    ensures RowStrings(Pack(ps1, rowLength).0) == grown[..|grown| - 1] + [row + p]
    ensures Pack(ps1, rowLength).1 == len1
  {
    var prev := Pack(ps, rowLength);
    assert ps1[..|ps1| - 1] == ps && ps1[|ps1| - 1] == p;
    PackLast(ps, rowLength);
    if len0 + |p| + 1 > rowLength {
      assert Pack(ps1, rowLength) == (prev.0 + [[p]], 0);
      assert grown == RowStrings(prev.0) + [""] && row == grown[|grown| - 1];
      BreakTurn(prev.0, p);
    } else {
      assert Pack(ps1, rowLength) == (prev.0[..|prev.0| - 1] + [prev.0[|prev.0| - 1] + [p]], len1);
      assert grown == RowStrings(prev.0) && |grown| == |prev.0|;
      AddToRow(prev.0, p);
    }
  }

  /** A pair that opens a new row. */
  lemma BreakTurn(rows: seq<seq<string>>, p: string)
    ensures var grown := RowStrings(rows) + [""];
      RowStrings(rows + [[p]]) == grown[..|grown| - 1] + [grown[|grown| - 1] + p]
  {
    var r := rows + [[]];
    OpenRow(rows);
    AddToRow(r, p);
    assert r[..|r| - 1] == rows && r[|r| - 1] + [p] == [p];
  }

  /**
    The consequence of resetting `currLen` to 0: a row opened by a break
    may be longer than `rowLength`, by at most the length of its opening
    pair, while the first row stays shorter than `rowLength`.
  */
  lemma RowWidth(pairs: seq<string>, rowLength: int)
    ensures var rows := Pack(pairs, rowLength).0;
      (|RowStrings(rows)[0]| == 0 || |RowStrings(rows)[0]| < rowLength)
      && forall j :: 1 <= j < |rows| ==>
           rows[j] != [] && (|RowStrings(rows)[j]| == |rows[j][0]| || |RowStrings(rows)[j]| <= rowLength + |rows[j][0]|)
  {
    var rows := Pack(pairs, rowLength).0;
    PackBreaks(pairs, rowLength);
    assert RowOk(rows, 0, rowLength);
    if rows[0] != [] {
      JoinLength(rows[0]);
    }
    forall j | 1 <= j < |rows| ensures rows[j] != []
      && (|RowStrings(rows)[j]| == |rows[j][0]| || |RowStrings(rows)[j]| <= rowLength + |rows[j][0]|) {
      assert RowOk(rows, j, rowLength);
      JoinLength(rows[j]);
      CostTail(rows[j]);
    }
  }

  /** Three pairs of length 3 with `rowLength` 4: the reset lets the second row grow to 7 characters. */
  lemma ResetOverfillsRow()
    ensures RowStrings(Pack(["a:1", "b:2", "c:3"], 4).0) == ["a:1", "b:2;c:3"]
  {
    var p0: seq<seq<string>> := [[]];
    assert Pack([], 4) == (p0, 0);
    assert ["a:1"][..0] == [];
    assert Pack(["a:1"], 4) == ([["a:1"]], 4) by {
      assert p0[0] + ["a:1"] == ["a:1"];
      assert p0[..0] + [p0[0] + ["a:1"]] == [["a:1"]];
    }
    var p1: seq<seq<string>> := [["a:1"]];
    assert ["a:1", "b:2"][..1] == ["a:1"];
    assert Pack(["a:1", "b:2"], 4) == ([["a:1"], ["b:2"]], 0) by {
      assert p1 + [["b:2"]] == [["a:1"], ["b:2"]];
    }
    var p2: seq<seq<string>> := [["a:1"], ["b:2"]];
    assert ["a:1", "b:2", "c:3"][..2] == ["a:1", "b:2"];
    assert Pack(["a:1", "b:2", "c:3"], 4).0 == [["a:1"], ["b:2", "c:3"]] by {
      assert p2[1] + ["c:3"] == ["b:2", "c:3"];
      assert p2[..1] + [p2[1] + ["c:3"]] == [["a:1"], ["b:2", "c:3"]];
    }
    assert Join(["b:2", "c:3"], ';') == "b:2;c:3" by {
      assert ["b:2", "c:3"][..1] == ["b:2"];
    }
  }

  // ------------------------------------------------------------ write / load

  /** A key `write` and `load` carry unchanged: no `:`, no line break, no whitespace at either end. */
  predicate KeyOk(k: string) {
    ':' !in k && '\n' !in k && Trimmed(k)
  }

  predicate KeysOk(m: Ids) {
    forall k :: k in m ==> KeyOk(k)
  }

  /** The line `write` puts out for one entry. */
  function WriteLine(key: string, id: int): string {
    key + ": " + IntToString(id) + "\n"
  }

  /** The file `write` produces: one line per entry, in ascending key order. */
  function WriteLines(m: Ids): (lines: seq<string>)
    ensures |lines| == |Entries(m)|
  {
    var es := Entries(m);
    seq(|es|, i requires 0 <= i < |es| => WriteLine(es[i].0, es[i].1))
  }

  /** Why `load` stops at a line: it does not split into exactly two fields at `:`, or the value is no integer. */
  datatype LineError = WrongFieldCount | NotAnInteger

  /** The line, counted from 0, where `load` stopped, and why. */
  datatype LoadError = LoadError(line: nat, kind: LineError)

  /** One line of a saved table: split at `:`, both fields stripped, the value read with `int`. */
  function ParseLine(line: string): (r: Result<(string, int), LineError>)
    ensures r.Success? ==> Trimmed(r.value.0)
  {
    var parts := SplitOn(line, ':');
    if |parts| != 2 then Failure(WrongFieldCount)
    else match ParseInt(Strip(parts[1]))
      case None => Failure(NotAnInteger)
      case Some(v) => Success((Strip(parts[0]), v))
  }

  /** A written line parses back to its key and id. */
  lemma ParseWrittenLine(key: string, id: int)
    requires KeyOk(key)
    ensures ParseLine(WriteLine(key, id)) == Success((key, id))
  {
    var s := IntToString(id);
    var rest := " " + s + "\n";
    assert WriteLine(key, id) == key + [':'] + rest;
    assert ':' !in rest;
    SplitOnOne(key, ':', rest);
    StripPadded([], key, []);
    assert [] + key + [] == key;
    StripPadded(" ", s, "\n");
    IntToStringRoundTrip(id);
  }

  /** The smaller of the smallest value so far (if any) and `v`. */
  function Lower(low: Option<int>, v: int): int {
    if low.Some? && low.value < v then low.value else v
  }

  /** What the loop of `load` gathers: the entries, and the smallest value read (none for no lines). */
  datatype Loaded = Loaded(ids: Ids, low: Option<int>)

  /** One parsed line stored: `featureIds[key] = value`, and the smallest value so far updated. */
  function Add(l: Loaded, e: (string, int)): Loaded {
    Loaded(l.ids[e.0 := e.1], Some(Lower(l.low, e.1)))
  }

  /** The entries stored one after the other, from an empty table. */
  function Fold(es: seq<(string, int)>): Loaded
    decreases |es|
  {
    if es == [] then Loaded(map[], None) else Add(Fold(es[..|es| - 1]), es[|es| - 1])
  }

  /** The loop of `load` over the lines, stopping at the first line that does not parse. */
  function ReadEntries(lines: seq<string>): (r: Result<Loaded, LoadError>)
    ensures r.Failure? ==> r.error.line < |lines|
    decreases |lines|
  {
    if lines == [] then Success(Loaded(map[], None))
    else match ReadEntries(lines[..|lines| - 1])
      case Failure(e) => Failure(e)
      case Success(l) =>
        match ParseLine(lines[|lines| - 1])
        case Failure(k) => Failure(LoadError(|lines| - 1, k))
        case Success(e) => Success(Add(l, e))
  }

  /** A table: the ids and `firstNumber`. */
  datatype Table = Table(ids: Ids, first: int)

  /** `load` as written: `firstNumber` starts at 0 and drops to any smaller value read. */
  function LoadLines(lines: seq<string>): (r: Result<Table, LoadError>)
  {
    match ReadEntries(lines)
    case Failure(e) => Failure(e)
    case Success(l) => Success(Table(l.ids, Lower(l.low, 0)))
  }

  /** `load` with `firstNumber` the smallest id read, and 0 for an empty file. */
  function LoadLinesFixed(lines: seq<string>): (r: Result<Table, LoadError>)
  {
    match ReadEntries(lines)
    case Failure(e) => Failure(e)
    case Success(l) => Success(Table(l.ids, if l.low.Some? then l.low.value else 0))
  }

  /** Once a line fails, the lines after it do not matter: `load` stops there. */
  lemma {:induction false} ReadEntriesStops(lines: seq<string>, n: nat)
    requires n <= |lines| && ReadEntries(lines[..n]).Failure?
    ensures ReadEntries(lines) == ReadEntries(lines[..n])
    decreases |lines|
  {
    if n < |lines| {
      var init := lines[..|lines| - 1];
      assert init[..n] == lines[..n];
      ReadEntriesStops(init, n);
    } else {
      assert lines[..n] == lines;
    }
  }

  /** Loading succeeds exactly when every line parses; otherwise the error names the first bad line. */
  lemma {:induction false} ReadEntriesFails(lines: seq<string>)
    ensures ReadEntries(lines).Success? <==> forall i :: 0 <= i < |lines| ==> ParseLine(lines[i]).Success?
    ensures ReadEntries(lines).Failure? ==>
      var e := ReadEntries(lines).error;
      ParseLine(lines[e.line]) == Failure(e.kind)
      && forall i :: 0 <= i < e.line ==> ParseLine(lines[i]).Success?
    decreases |lines|
  {
    if lines != [] {
      var init := lines[..|lines| - 1];
      ReadEntriesFails(init);
      assert forall i :: 0 <= i < |init| ==> init[i] == lines[i];
    }
  }

  /** The entries of lines that all parse. */
  function Parsed(lines: seq<string>): (es: seq<(string, int)>)
    requires forall i :: 0 <= i < |lines| ==> ParseLine(lines[i]).Success?
    ensures |es| == |lines|
  {
    seq(|lines|, i requires 0 <= i < |lines| => ParseLine(lines[i]).value)
  }

  /** When every line parses, `load` stores their entries in file order. */
  lemma {:induction false} ReadEntriesFold(lines: seq<string>)
    requires forall i :: 0 <= i < |lines| ==> ParseLine(lines[i]).Success?
    ensures ReadEntries(lines) == Success(Fold(Parsed(lines)))
    decreases |lines|
  {
    if lines != [] {
      var init := lines[..|lines| - 1];
      assert forall i :: 0 <= i < |init| ==> init[i] == lines[i];
      ReadEntriesFold(init);
      assert Parsed(lines)[..|init|] == Parsed(init);
    }
  }

  /** The loaded keys are exactly the keys of the lines. */
  lemma {:induction false} FoldKeys(es: seq<(string, int)>)
    ensures forall k :: k in Fold(es).ids <==> exists i :: 0 <= i < |es| && es[i].0 == k
    decreases |es|
  {
    if es != [] {
      var init := es[..|es| - 1];
      FoldKeys(init);
      forall k | k in Fold(es).ids ensures exists i :: 0 <= i < |es| && es[i].0 == k {
        if k != es[|es| - 1].0 {
          var i :| 0 <= i < |init| && init[i].0 == k;
          assert es[i].0 == k;
        }
      }
      forall i | 0 <= i < |es| ensures es[i].0 in Fold(es).ids {
        if i < |init| {
          assert init[i] == es[i];
        }
      }
    }
  }

  /** Every loaded id was read with its key on some line. */
  lemma {:induction false} FoldValues(es: seq<(string, int)>)
    ensures forall k :: k in Fold(es).ids ==> exists i :: 0 <= i < |es| && es[i] == (k, Fold(es).ids[k])
    decreases |es|
  {
    if es != [] {
      var init := es[..|es| - 1];
      FoldValues(init);
      forall k | k in Fold(es).ids ensures exists i :: 0 <= i < |es| && es[i] == (k, Fold(es).ids[k]) {
        if k != es[|es| - 1].0 {
          var i :| 0 <= i < |init| && init[i] == (k, Fold(init).ids[k]);
          assert es[i] == (k, Fold(es).ids[k]);
        }
      }
    }
  }

  /** A key keeps the value of the last line that names it. */
  lemma {:induction false} FoldLastWins(es: seq<(string, int)>)
    ensures forall i :: 0 <= i < |es| && (forall j :: i < j < |es| ==> es[j].0 != es[i].0) ==>
      es[i].0 in Fold(es).ids && Fold(es).ids[es[i].0] == es[i].1
    decreases |es|
  {
    if es != [] {
      var n := |es| - 1;
      var init := es[..n];
      FoldLastWins(init);
      forall i | 0 <= i < n && (forall j :: i < j < |es| ==> es[j].0 != es[i].0)
        ensures es[i].0 in Fold(es).ids && Fold(es).ids[es[i].0] == es[i].1
      {
        assert init[i] == es[i];
        assert es[n].0 != es[i].0;
        assert forall j :: i < j < n ==> init[j] == es[j];
      }
    }
  }

  /** The smallest value read is at most every value read, and one of them. */
  lemma {:induction false} FoldLow(es: seq<(string, int)>)
    ensures Fold(es).low.None? <==> es == []
    ensures Fold(es).low.Some? ==>
      (forall i :: 0 <= i < |es| ==> Fold(es).low.value <= es[i].1)
      && exists i :: 0 <= i < |es| && es[i].1 == Fold(es).low.value
    decreases |es|
  {
    if es != [] {
      var n := |es| - 1;
      var init := es[..n];
      FoldLow(init);
      assert forall i :: 0 <= i < n ==> init[i] == es[i];
      var prev := Fold(init).low;
      if prev.Some? && prev.value < es[n].1 {
        var i :| 0 <= i < n && init[i].1 == prev.value;
        assert es[i].1 == Fold(es).low.value;
      }
    }
  }

  /** `load` as written ends with `firstNumber` at most 0 and at most every value read, and equal to 0 or one of them. */
  lemma LoadFirstNumber(lines: seq<string>)
    requires LoadLines(lines).Success?
    ensures forall i :: 0 <= i < |lines| ==> ParseLine(lines[i]).Success?
    ensures var t := LoadLines(lines).value;
      t.first <= 0
      && (forall i :: 0 <= i < |lines| ==> t.first <= ParseLine(lines[i]).value.1)
      && (t.first == 0 || exists i :: 0 <= i < |lines| && ParseLine(lines[i]).value.1 == t.first)
  {
    ReadEntriesFails(lines);
    ReadEntriesFold(lines);
    var es := Parsed(lines);
    FoldLow(es);
    var t := LoadLines(lines).value;
    assert forall i :: 0 <= i < |lines| ==> ParseLine(lines[i]).value.1 == es[i].1;
    if t.first != 0 {
      var i :| 0 <= i < |es| && es[i].1 == t.first;
      assert ParseLine(lines[i]).value.1 == t.first;
    }
  }

  /** Every written line parses back, so loading the file stores the table's entries in key order. */
  lemma ReadWrittenLines(m: Ids)
    requires KeysOk(m)
    ensures ReadEntries(WriteLines(m)) == Success(Fold(Entries(m)))
  {
    var es := Entries(m);
    EntriesInKeyOrder(m);
    var lines := WriteLines(m);
    WrittenLinesParse(m);
    ReadEntriesFold(lines);
    assert Parsed(lines) == es;
  }

  lemma WrittenLinesParse(m: Ids)
    requires KeysOk(m)
    ensures forall i :: 0 <= i < |WriteLines(m)| ==> ParseLine(WriteLines(m)[i]) == Success(Entries(m)[i])
  {
    var es := Entries(m);
    EntriesInKeyOrder(m);
    forall i | 0 <= i < |WriteLines(m)| ensures ParseLine(WriteLines(m)[i]) == Success(es[i]) {
      ParseWrittenLine(es[i].0, es[i].1);
    }
  }

  /** Storing the entries of a table one by one rebuilds its ids. */
  lemma FoldEntriesIds(m: Ids)
    ensures Fold(Entries(m)).ids == m
  {
    FoldEntriesKeys(m);
    FoldEntriesValues(m);
  }

  lemma FoldEntriesKeys(m: Ids)
    ensures forall k :: k in Fold(Entries(m)).ids <==> k in m
  {
    var es := Entries(m);
    EntriesInKeyOrder(m);
    FoldKeys(es);
    forall k | k in m ensures k in Fold(es).ids {
      var i :| 0 <= i < |es| && es[i] == (k, m[k]);
      assert es[i].0 == k;
    }
  }

  lemma FoldEntriesValues(m: Ids)
    ensures forall k :: k in m && k in Fold(Entries(m)).ids ==> Fold(Entries(m)).ids[k] == m[k]
  {
    var es := Entries(m);
    EntriesInKeyOrder(m);
    FoldValues(es);
    var l := Fold(es);
    forall k | k in m && k in l.ids ensures l.ids[k] == m[k] {
      var i :| 0 <= i < |es| && es[i] == (k, l.ids[k]);
    }
  }

  /** The smallest value among the entries of a table is its least id. */
  lemma FoldEntriesLow(m: Ids)
    ensures Fold(Entries(m)).low.None? <==> m == map[]
    ensures Fold(Entries(m)).low.Some? ==>
      (forall k :: k in m ==> Fold(Entries(m)).low.value <= m[k]) && Fold(Entries(m)).low.value in m.Values
  {
    var es := Entries(m);
    EntriesInKeyOrder(m);
    FoldLow(es);
    var l := Fold(es);
    if l.low.Some? {
      forall k | k in m ensures l.low.value <= m[k] {
        var i :| 0 <= i < |es| && es[i] == (k, m[k]);
      }
      var i :| 0 <= i < |es| && es[i].1 == l.low.value;
    }
    assert m == map[] <==> es == [] by {
      if m != map[] { assert |m| > 0 by { assert m.Keys != {}; } }
    }
  }

  /** Loading the written file gives back exactly the table's ids, and the least of them as smallest value. */
  lemma ReadWritten(m: Ids)
    requires KeysOk(m)
    ensures ReadEntries(WriteLines(m)).Success?
    ensures var l := ReadEntries(WriteLines(m)).value;
      l.ids == m
      && (l.low.None? <==> m == map[])
      && (l.low.Some? ==> (forall k :: k in m ==> l.low.value <= m[k]) && l.low.value in m.Values)
  {
    ReadWrittenLines(m);
    FoldEntriesIds(m);
    FoldEntriesLow(m);
  }

  /**
    Round trip through `write` and `load` as written: the same ids come
    back, and `firstNumber` is the least of 0 and the ids.
  */
  lemma WriteThenLoad(m: Ids)
    requires KeysOk(m)
    ensures LoadLines(WriteLines(m)).Success?
    ensures var t := LoadLines(WriteLines(m)).value;
      t.ids == m
      && t.first <= 0 && (forall k :: k in m ==> t.first <= m[k])
      && (t.first == 0 || exists k :: k in m && m[k] == t.first)
  {
    ReadWritten(m);
    var l := ReadEntries(WriteLines(m)).value;
    if l.low.Some? && l.low.value < 0 {
      var k :| k in m && m[k] == l.low.value;
    }
  }

  /**
    Round trip through `write` and the corrected `load`: the ids and
    `firstNumber` of a table built by `getId` come back (`firstNumber` as
    0 when the table is empty), so the table is dense again.
  */
  lemma WriteThenLoadFixed(m: Ids, first: int)
    requires KeysOk(m) && Dense(m, first)
    ensures LoadLinesFixed(WriteLines(m)) == Success(Table(m, if m == map[] then 0 else first))
    ensures Dense(LoadLinesFixed(WriteLines(m)).value.ids, LoadLinesFixed(WriteLines(m)).value.first)
  {
    ReadWritten(m);
    var l := ReadEntries(WriteLines(m)).value;
    if m != map[] {
      assert |m| > 0 by { assert m.Keys != {}; }
      assert first in m.Values;
      var k0 :| k0 in m && m[k0] == first;
      var k :| k in m && m[k] == l.low.value;
    }
  }

  /** After a corrected reload, a new name gets an id no loaded name has. */
  lemma ReloadFixedFresh(m: Ids, first: int, name: string)
    requires KeysOk(m) && Dense(m, first) && name !in m
    ensures LoadLinesFixed(WriteLines(m)).Success?
    ensures var t := LoadLinesFixed(WriteLines(m)).value;
      Intern(t.ids, t.first, name).1 !in m.Values
  {
    WriteThenLoadFixed(m, first);
    var t := LoadLinesFixed(WriteLines(m)).value;
    InternKeepsDense(t.ids, t.first, name);
  }

  /**
    The discrepancy in `load` as written: a table built with the default
    `firstNumber` 1, saved and loaded again, counts from 0, so the next
    new name gets the id of the name that already holds the largest one.
  */
  lemma ReloadCollides(m: Ids, name: string)
    requires KeysOk(m) && Dense(m, DefaultFirstNumber) && m != map[] && name !in m
    ensures LoadLines(WriteLines(m)).Success?
    ensures var t := LoadLines(WriteLines(m)).value;
      t.first == 0 && !Dense(t.ids, t.first)
      && exists k :: k in m && m[k] == Intern(t.ids, t.first, name).1
  {
    WriteThenLoad(m);
    var t := LoadLines(WriteLines(m)).value;
    assert |m| > 0 by { assert m.Keys != {}; }
    assert t.first == 0;
    assert |m| in m.Values;
    var k :| k in m && m[k] == |m|;
    assert !(t.ids[k] < t.first + |t.ids|);
  }

  /** The loop of `toStrings` over the entries in key order. */
  method PackEntries(es: seq<(string, int)>, rowLength: int) returns (strings: seq<string>)
    ensures strings == RowStrings(Pack(PairsOf(es), rowLength).0)
  {
    ghost var pairs := PairsOf(es);
    strings := [""];
    PackEmpty(rowLength);
    var currLen := 0;
    var i := 0;
    ghost var cur := Pack([], rowLength);
    assert pairs[..0] == [];
    while i < |es|
      invariant 0 <= i <= |es|
      invariant cur == Pack(pairs[..i], rowLength)
      invariant strings == RowStrings(cur.0) && currLen == cur.1
    {
      var pair := es[i].0 + ":" + IntToString(es[i].1);
      assert pair == pairs[i];
      TakeSnoc(pairs, i);
      ghost var len0 := currLen;
      currLen := currLen + |pair| + 1;
      if currLen > rowLength {
        currLen := 0;
        strings := strings + [""];
      }
      var row := strings[|strings| - 1];
      if row != "" {
        row := row + ";";
      }
      ToStringsStep(pairs[..i], pair, pairs[..i + 1], rowLength, len0, currLen, strings, row);
      strings := strings[..|strings| - 1] + [row + pair];
      cur := Pack(pairs[..i + 1], rowLength);
      i := i + 1;
    }
    assert pairs[..i] == pairs;
  }

  // ------------------------------------------------------------ the class

  class FeatureSet {
    var featureIds: Ids
    var firstNumber: int

    constructor (firstNumber: int := DefaultFirstNumber)
      ensures featureIds == map[] && this.firstNumber == firstNumber
      ensures Dense(featureIds, this.firstNumber)
    {
      featureIds := map[];
      this.firstNumber := firstNumber;
    }

    /** `getId`: the id of `name`, added with the next free number if it is new. */
    method GetId(name: string) returns (id: int)
      modifies this
      ensures (featureIds, id) == Intern(old(featureIds), old(firstNumber), name)
      ensures firstNumber == old(firstNumber)
      ensures old(Dense(featureIds, firstNumber)) ==> Dense(featureIds, firstNumber)
    {
      if name !in featureIds {
        featureIds := featureIds[name := |featureIds| + firstNumber];
      }
      id := featureIds[name];
      if old(Dense(featureIds, firstNumber)) {
        InternKeepsDense(old(featureIds), firstNumber, name);
      }
    }

    /** `toStrings(rowLength)`: the pairs in key order, packed into rows. */
    method ToStrings(rowLength: int := DefaultRowLength) returns (strings: seq<string>)
      ensures strings == RowStrings(Pack(Pairs(featureIds), rowLength).0)
    {
      strings := PackEntries(Entries(featureIds), rowLength);
    }

    /**
      `load`, with `firstNumber` corrected to the smallest id read, on the
      lines of the file. It stops at the first bad line, leaving the
      entries of the lines before it.
    */
    method Load(lines: seq<string>) returns (err: Option<LoadError>)
      modifies this
      ensures LoadLinesFixed(lines) == if err.None? then Success(Table(featureIds, firstNumber)) else Failure(err.value)
      ensures err.Some? ==>
                err.value.line < |lines| && LoadLinesFixed(lines[..err.value.line]) == Success(Table(featureIds, firstNumber))
    {
      featureIds := map[];
      firstNumber := 0;
      var i := 0;
      while i < |lines|
        invariant 0 <= i <= |lines|
        invariant i == 0 ==> firstNumber == 0
        invariant ReadEntries(lines[..i]) == Success(Loaded(featureIds, if i == 0 then None else Some(firstNumber)))
      {
        TakeSnoc(lines, i);
        var parts := SplitOn(lines[i], ':');
        if |parts| != 2 {
          err := Some(LoadError(i, WrongFieldCount));
          ReadEntriesStops(lines, i + 1);
          return;
        }
        var key := Strip(parts[0]);
        var value := ParseInt(Strip(parts[1]));
        if value.None? {
          err := Some(LoadError(i, NotAnInteger));
          ReadEntriesStops(lines, i + 1);
          return;
        }
        if i == 0 || firstNumber > value.value {
          firstNumber := value.value;
        }
        featureIds := featureIds[key := value.value];
        i := i + 1;
      }
      assert lines[..i] == lines;
      err := None;
    }
  }
}
